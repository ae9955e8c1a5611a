/**
 What becomes of the lists of a tree in the arena, as a property of the tree alone: a list of three or
 more loses its first two elements unless something is requested between its first pushes.
 */
module HeldTrees {
  import opened Tokens
  import opened Syntax
  import opened Pool
  import opened PoolTheorems
  import Heaps

  // ----- Which trees ask the arena for memory -----

  ghost predicate Asks(t: Tree)
    decreases Size(t), 0, 0
  {
    !t.NoTree? &&
    (SizeOfParts(t);
     || t.FuncTree? || (t.CallTree? && t.args.Trees?) || (t.ArrayTree? && t.elems.Trees?) || (t.BlockTree? && t.stmts.Trees?)
     || AsksAny(Parts(t)))
  }

  ghost predicate AsksAny(parts: seq<Tree>)
    decreases Sizes(parts), 1, |parts|
  {
    parts != [] && (Asks(parts[0]) || AsksAny(parts[1..]))
  }

  // ----- Which lists lose their first two elements -----

  /** Room for an element is made before it is parsed, so its own requests come between it and the next push. */
  ghost predicate LosesArgs(ts: seq<Tree>) {
    |ts| >= 3 && !Asks(ts[0]) && !Asks(ts[1])
  }

  /** A statement is parsed before there is room for it. */
  ghost predicate LosesStmts(ts: seq<Tree>) {
    |ts| >= 3 && !Asks(ts[1]) && !Asks(ts[2])
  }

  ghost predicate LosesList(t: Tree) {
    match t
    case CallTree(_, args) => LosesArgs(List(args))
    case ArrayTree(elems, _) => LosesArgs(List(elems))
    case BlockTree(stmts) => LosesStmts(List(stmts))
    case _ => false
  }

  /** Where a node's list starts among its children. */
  ghost function ListStart(t: Tree): nat {
    if t.CallTree? then 1 else 0
  }

  function Blanked(ps: seq<Param>): (held: seq<Param>)
    ensures |held| == |ps|
  {
    if |ps| >= 3 then [Heaps.BLANK, Heaps.BLANK] + ps[2..] else ps
  }

  // ----- The nodes as memory holds them -----

  lemma {:induction false} LongList(t: Tree)
    requires !t.NoTree? && LosesList(t)
    ensures |Parts(t)| >= ListStart(t) + 3 && !t.FuncTree?
  {
    hide Asks;
  }

  /** The node of a tree, with its list as memory holds it. */
  ghost function HeldNode(t: Tree, base: nat): (node: Node)
    requires !t.NoTree?
    ensures |node.children| == |Parts(t)|
  {
    var node := NodeOf(t, base);
    if LosesList(t) then
      LongList(t);
      node.(children := node.children[ListStart(t) := None][ListStart(t) + 1 := None])
    else if t.FuncTree? then node.(data := FuncData(Blanked(t.params)))
    else node
  }

  /** The slice of a tree, with all its lists as memory holds them. */
  ghost function Held(t: Tree, base: nat): (slice: seq<Node>)
    ensures |slice| == Size(t)
    decreases Size(t), 0, 0
  {
    if t.NoTree? then []
    else
      SizeOfParts(t);
      var parts, k := Parts(t), Earlier(t);
      var at := base + Sizes(parts[..k]);
      HeldAll(parts[..k], base) + [HeldNode(t, base)] + HeldAll(parts[k..], at + 1)
  }

  ghost function HeldAll(parts: seq<Tree>, base: nat): (slice: seq<Node>)
    ensures |slice| == Sizes(parts)
    decreases Sizes(parts), 1, |parts|
  {
    if parts == [] then []
    else Held(parts[0], base) + HeldAll(parts[1..], base + Size(parts[0]))
  }

  // ----- When nothing is lost -----

  /** The first two elements of a list that loses them were null to begin with. */
  ghost predicate NodeIntact(t: Tree)
    requires !t.NoTree?
  {
    && (LosesList(t) ==> (LongList(t); Parts(t)[ListStart(t)].NoTree? && Parts(t)[ListStart(t) + 1].NoTree?))
    && (t.FuncTree? ==> |t.params| <= 2 || t.params[0] == t.params[1] == Heaps.BLANK)
  }

  /**
   Every list of the tree has at most two elements, or something is requested between its first pushes,
   or its first two elements are null anyway.
   */
  ghost predicate Intact(t: Tree)
    decreases Size(t), 0, 0
  {
    t.NoTree? || (SizeOfParts(t); NodeIntact(t) && IntactAll(Parts(t)))
  }

  ghost predicate IntactAll(parts: seq<Tree>)
    decreases Sizes(parts), 1, |parts|
  {
    parts == [] || (Intact(parts[0]) && IntactAll(parts[1..]))
  }

  lemma {:induction false} IntactEach(parts: seq<Tree>)
    ensures IntactAll(parts) <==> forall i :: 0 <= i < |parts| ==> Intact(parts[i])
    decreases |parts|
  {
    hide Intact;
    if parts != [] {
      IntactEach(parts[1..]);
      assert forall i :: 0 < i < |parts| ==> parts[i] == parts[1..][i - 1];
      assert forall i :: 0 <= i < |parts[1..]| ==> parts[1..][i] == parts[i + 1];
    }
  }

  lemma {:induction false} IntactSplit(parts: seq<Tree>, k: nat)
    requires k <= |parts|
    ensures IntactAll(parts) <==> IntactAll(parts[..k]) && IntactAll(parts[k..])
  {
    hide Intact, IntactAll;
    IntactEach(parts);
    IntactEach(parts[..k]);
    IntactEach(parts[k..]);
    assert forall i :: k <= i < |parts| ==> parts[i] == parts[k..][i - k];
    assert forall i :: 0 <= i < k ==> parts[i] == parts[..k][i];
  }

  lemma {:induction false} RootIsNull(parts: seq<Tree>, base: nat, i: nat)
    requires i < |parts|
    ensures Roots(parts, base)[i].None? <==> parts[i].NoTree?
    decreases |parts|
  {
    hide Size;
    if i > 0 { RootIsNull(parts[1..], base + Size(parts[0]), i - 1); }
  }

  /** A child pointer of a node is null exactly when the part is. */
  lemma {:induction false} ChildIsNull(t: Tree, base: nat, i: nat)
    requires !t.NoTree? && i < |Parts(t)|
    ensures NodeOf(t, base).children[i].None? <==> Parts(t)[i].NoTree?
  {
    hide DataOf, Parts, Earlier, Sizes, Roots;
    var parts, k := Parts(t), Earlier(t);
    if i < k {
      RootIsNull(parts[..k], base, i);
    } else {
      RootIsNull(parts[k..], base + Sizes(parts[..k]) + 1, i - k);
      assert parts[k..][i - k] == parts[i];
    }
  }

  lemma {:induction false} NodeIsHeld(t: Tree, base: nat)
    requires !t.NoTree?
    ensures HeldNode(t, base) == NodeOf(t, base) <==> NodeIntact(t)
  {
    hide Asks, Parts, NodeOf, LosesList;
    var node := NodeOf(t, base);
    DataIs(t, base);
    if LosesList(t) {
      LongList(t);
      ChildIsNull(t, base, ListStart(t));
      ChildIsNull(t, base, ListStart(t) + 1);
    } else if t.FuncTree? {
      BlankedParams(t.params);
    }
  }

  lemma DataIs(t: Tree, base: nat)
    requires !t.NoTree?
    ensures NodeOf(t, base).data == DataOf(t) && |NodeOf(t, base).children| == |Parts(t)|
    ensures t.FuncTree? ==> NodeOf(t, base).data == FuncData(t.params)
  {
    hide Parts, Earlier, Roots, Sizes;
  }

  lemma BlankedParams(ps: seq<Param>)
    ensures Blanked(ps) == ps <==> |ps| <= 2 || ps[0] == ps[1] == Heaps.BLANK
  {
    if |ps| >= 3 {
      assert ps == [ps[0], ps[1]] + ps[2..];
      assert Blanked(ps)[0] == Heaps.BLANK && Blanked(ps)[1] == Heaps.BLANK;
    }
  }

  lemma SameParts(a1: seq<Node>, n1: Node, b1: seq<Node>, a2: seq<Node>, n2: Node, b2: seq<Node>)
    requires |a1| == |a2| && |b1| == |b2|
    ensures a1 + [n1] + b1 == a2 + [n2] + b2 <==> a1 == a2 && n1 == n2 && b1 == b2
  {
    var s1, s2 := a1 + [n1] + b1, a2 + [n2] + b2;
    assert s1[..|a1|] == a1 && s2[..|a1|] == a2 && s1[|a1|] == n1 && s2[|a1|] == n2;
    assert s1[|a1| + 1..] == b1 && s2[|a1| + 1..] == b2;
  }

  lemma SameHalves(a1: seq<Node>, b1: seq<Node>, a2: seq<Node>, b2: seq<Node>)
    requires |a1| == |a2|
    ensures a1 + b1 == a2 + b2 <==> a1 == a2 && b1 == b2
  {
    assert (a1 + b1)[..|a1|] == a1 && (a2 + b2)[..|a1|] == a2 && (a1 + b1)[|a1|..] == b1 && (a2 + b2)[|a1|..] == b2;
  }

  /** Memory holds the nodes that the parser wrote exactly when the tree is intact. */
  lemma {:induction false} HeldIsFlat(t: Tree, base: nat)
    ensures Held(t, base) == Flatten(t, base) <==> Intact(t)
    decreases Size(t), 0, 0
  {
    hide HeldAll, FlattenAll, HeldNode, NodeOf, NodeIntact, IntactAll, Parts, Earlier, Size, Sizes;
    if !t.NoTree? {
      SizeOfParts(t);
      var parts, k := Parts(t), Earlier(t);
      var at := base + Sizes(parts[..k]);
      HeldAllIsFlat(parts[..k], base);
      HeldAllIsFlat(parts[k..], at + 1);
      IntactSplit(parts, k);
      NodeIsHeld(t, base);
      SameParts(HeldAll(parts[..k], base), HeldNode(t, base), HeldAll(parts[k..], at + 1),
                FlattenAll(parts[..k], base), NodeOf(t, base), FlattenAll(parts[k..], at + 1));
    }
  }

  lemma {:induction false} HeldAllIsFlat(parts: seq<Tree>, base: nat)
    ensures HeldAll(parts, base) == FlattenAll(parts, base) <==> IntactAll(parts)
    decreases Sizes(parts), 1, |parts|
  {
    hide Held, Flatten, Intact, Size;
    if parts != [] {
      var next := base + Size(parts[0]);
      HeldIsFlat(parts[0], base);
      HeldAllIsFlat(parts[1..], next);
      SameHalves(Held(parts[0], base), HeldAll(parts[1..], next), Flatten(parts[0], base), FlattenAll(parts[1..], next));
    }
  }

  // ----- What following the pointers in memory gives -----

  lemma {:induction false} HeldParts(t: Tree, base: nat)
    requires !t.NoTree?
    ensures var parts, k := Parts(t), Earlier(t);
            var at := base + Sizes(parts[..k]);
            Held(t, base) == HeldAll(parts[..k], base) + [HeldNode(t, base)] + HeldAll(parts[k..], at + 1)
  {
    hide Parts, Earlier, HeldNode;
  }

  /** If the pointers in memory lead from the root back to the tree, the tree is intact. */
  lemma {:induction false} RepresentedIsIntact(nodes: seq<Node>, t: Tree, base: nat)
    requires SliceAt(nodes, base, Held(t, base)) && Represents(nodes, Root(t, base), t)
    ensures Intact(t)
    decreases Size(t), 0, 0
  {
    hide DataOf, Parts, Earlier, SliceAt, NodeOf, Held, HeldAll, Represents, Roots, Size, Sizes, HeldNode, NodeIntact, IntactAll;
    if !t.NoTree? {
      SizeOfParts(t);
      HeldParts(t, base);
      var parts, k := Parts(t), Earlier(t);
      var at := base + Sizes(parts[..k]);
      SubSlices(nodes, base, HeldAll(parts[..k], base), HeldNode(t, base), HeldAll(parts[k..], at + 1));
      RepresentedNode(nodes, t, base);
      RepresentedAllAreIntact(nodes, parts[..k], base);
      RepresentedAllAreIntact(nodes, parts[k..], at + 1);
      IntactSplit(parts, k);
    }
  }

  /** A node in memory that represents its tree holds the pointers to its parts. */
  lemma {:induction false} RepresentedNode(nodes: seq<Node>, t: Tree, base: nat)
    requires !t.NoTree? && Represents(nodes, Root(t, base), t)
    requires var at := base + Sizes(Parts(t)[..Earlier(t)]);
             at < |nodes| && nodes[at] == HeldNode(t, base)
    ensures NodeIntact(t)
    ensures var parts, k := Parts(t), Earlier(t);
            && (forall i :: 0 <= i < k ==> Represents(nodes, Roots(parts[..k], base)[i], parts[..k][i]))
            && (forall i :: 0 <= i < |parts| - k ==>
                  Represents(nodes, Roots(parts[k..], base + Sizes(parts[..k]) + 1)[i], parts[k..][i]))
  {
    hide DataOf, Parts, Earlier, NodeOf, Represents, Roots, Size, Sizes, HeldNode, NodeIntact;
    ChildrenOf(nodes, Root(t, base), t);
    HeldIsIntact(nodes, t, base);
    NodeIsHeld(t, base);
    NodeChildren(t, base);
    var parts, k, node := Parts(t), Earlier(t), NodeOf(t, base);
    forall i | 0 <= i < k ensures Represents(nodes, Roots(parts[..k], base)[i], parts[..k][i]) {
      assert parts[..k][i] == parts[i] && node.children[i] == Roots(parts[..k], base)[i];
    }
    forall i | 0 <= i < |parts| - k
      ensures Represents(nodes, Roots(parts[k..], base + Sizes(parts[..k]) + 1)[i], parts[k..][i])
    {
      assert parts[k..][i] == parts[k + i];
      assert node.children[k + i] == Roots(parts[k..], base + Sizes(parts[..k]) + 1)[i];
    }
  }

  lemma {:induction false} ChildrenOf(nodes: seq<Node>, ref: Ref, t: Tree)
    requires !t.NoTree? && Represents(nodes, ref, t)
    ensures ref.Some? && ref.value < |nodes| && nodes[ref.value].data == DataOf(t)
    ensures |nodes[ref.value].children| == |Parts(t)|
    ensures forall i :: 0 <= i < |Parts(t)| ==> Represents(nodes, nodes[ref.value].children[i], Parts(t)[i])
  {
    hide DataOf, Parts, Size;
  }

  lemma {:induction false} NodeChildren(t: Tree, base: nat)
    requires !t.NoTree?
    ensures var parts, k := Parts(t), Earlier(t);
            NodeOf(t, base).children == Roots(parts[..k], base) + Roots(parts[k..], base + Sizes(parts[..k]) + 1)
  {
    hide DataOf, Parts, Earlier, Roots, Sizes;
  }

  lemma {:induction false} HeldIsIntact(nodes: seq<Node>, t: Tree, base: nat)
    requires !t.NoTree? && HeldNode(t, base).data == DataOf(t)
    requires forall i :: 0 <= i < |Parts(t)| ==> Represents(nodes, HeldNode(t, base).children[i], Parts(t)[i])
    ensures NodeIntact(t)
  {
    hide Parts, NodeOf, Represents, LosesList, Asks;
    DataIs(t, base);
    if LosesList(t) {
      LongList(t);
      var i := ListStart(t);
      assert HeldNode(t, base).children[i] == None && HeldNode(t, base).children[i + 1] == None;
      NullRepresents(nodes, Parts(t)[i]);
      NullRepresents(nodes, Parts(t)[i + 1]);
    } else if t.FuncTree? {
      BlankedParams(t.params);
    }
  }

  lemma {:induction false} NullRepresents(nodes: seq<Node>, t: Tree)
    ensures Represents(nodes, None, t) ==> t.NoTree?
  {
  }

  lemma {:induction false} RepresentedAllAreIntact(nodes: seq<Node>, parts: seq<Tree>, base: nat)
    requires SliceAt(nodes, base, HeldAll(parts, base))
    requires forall i :: 0 <= i < |parts| ==> Represents(nodes, Roots(parts, base)[i], parts[i])
    ensures IntactAll(parts)
    decreases Sizes(parts), 1, |parts|
  {
    hide Represents, Size, Root, Held, SliceAt, Intact;
    if parts != [] {
      var next := base + Size(parts[0]);
      TwoSlices(nodes, base, Held(parts[0], base), HeldAll(parts[1..], next));
      assert Represents(nodes, Roots(parts, base)[0], parts[0]);
      RepresentedIsIntact(nodes, parts[0], base);
      forall i | 0 <= i < |parts[1..]| ensures Represents(nodes, Roots(parts[1..], next)[i], parts[1..][i]) {
        assert Roots(parts, base)[i + 1] == Roots(parts[1..], next)[i] && parts[i + 1] == parts[1..][i];
      }
      RepresentedAllAreIntact(nodes, parts[1..], next);
    }
  }

  /** The pool that memory holds for a program is one tree exactly when the program's tree is intact. */
  lemma {:induction false} WholeInMemory(t: Tree)
    requires t.BlockTree?
    ensures OneTree(Held(t, 0), t) <==> Intact(t)
    ensures Held(t, 0) == Flatten(t, 0) <==> Intact(t)
  {
    hide Held, Flatten, Represents, ParentCount, Size, Intact;
    HeldIsFlat(t, 0);
    WholePool(t);
    BlockRoot(t);
    if OneTree(Held(t, 0), t) {
      var nodes := Held(t, 0);
      assert nodes[0..|nodes|] == nodes;
      RepresentedIsIntact(nodes, t, 0);
    }
  }

  lemma {:induction false} BlockRoot(t: Tree)
    requires t.BlockTree?
    ensures Root(t, 0) == Some(0)
  {
    assert Parts(t)[..0] == [];
  }
}
