/** What the pool of a whole program looks like, and how large it can get. */
module PoolTheorems {
  import opened Tokens
  import opened Syntax
  import opened ParserSpec
  import opened Grammar
  import opened Pool
  import opened Placement
  import opened ParserTheorems
  import Converse

  /** The nodes form the tree `t`: node 0 is nobody's child, and every other node is a child once. */
  ghost predicate OneTree(nodes: seq<Node>, t: Tree) {
    && Represents(nodes, Some(0), t)
    && forall i: nat :: i < |nodes| ==> ParentCount(nodes, i) == if i == 0 then 0 else 1
  }

  lemma {:induction false} WholePool(t: Tree)
    requires t.BlockTree?
    ensures OneTree(Flatten(t, 0), t)
  {
    hide Flatten, Root, Represents, ParentCount, Size;
    var nodes := Flatten(t, 0);
    assert nodes[0..|nodes|] == nodes;
    SliceRepresents(nodes, t, 0);
    PlaceBlock([], t.stmts);
    forall i: nat | i < |nodes| ensures ParentCount(nodes, i) == if i == 0 then 0 else 1 {
      PoolIsOneTree(t, i);
    }
  }

  /** An error-free program needs no more nodes than there are tokens, the end token included. */
  lemma ProgramBudget(ts: seq<Tok>)
    requires Converse.AllSpelled(ts) && Converse.Clean(Program(ts))
    ensures Size(BlockTree(EraseItems(Program(ts).value))) <= |ts|
  {
    hide Converse.AllSpelled, Statements, EraseItems, LenItems, YieldItems, ShapedItems, BoundItems;
    var run := Program(ts);
    ProgramCharacterised(ts, run.value, run.pos);
    LenYieldItems(run.value);
    ItemsWithinTokens(run.value);
  }
}
