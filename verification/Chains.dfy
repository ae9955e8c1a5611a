/** Operator chains: how the code groups them, against the layered grammar of its comments. */
module Chains {
  import opened Tokens
  import opened Syntax
  import opened ParserSpec
  import opened Grammar
  import opened Brackets
  import opened ParserTheorems

  datatype Link = Link(op: TokenType, operand: Syn)

  predicate IsBinary(op: TokenType) {
    RuleOf(op).infix.BinaryInfix?
  }

  /** A unary expression, a postfix expression or a primary. */
  ghost predicate IsOperand(s: Syn) {
    Shaped(s) && Bound(s, PREC_FACTOR)
  }

  ghost predicate IsChain(first: Syn, links: seq<Link>) {
    IsOperand(first) && forall i :: 0 <= i < |links| ==> IsBinary(links[i].op) && IsOperand(links[i].operand)
  }

  ghost function ChainYield(first: Syn, links: seq<Link>): seq<Tok> {
    if links == [] then Yield(first)
    else
      var n := |links| - 1;
      ChainYield(first, links[..n]) + [Fixed(links[n].op)] + Yield(links[n].operand)
  }

  ghost function LeftFold(first: Syn, links: seq<Link>): Syn {
    if links == [] then first
    else
      var n := |links| - 1;
      Infix(LeftFold(first, links[..n]), links[n].op, links[n].operand)
  }

  // ----- The code builds the left fold -----

  lemma BinaryPrecedence(op: TokenType)
    requires IsBinary(op)
    ensures PREC_CMP <= Precedence(op) <= PREC_FACTOR && IsInfix(op) && RightPrecedence(op) == PREC_FACTOR
  {
  }

  lemma {:induction false} BoundLower(s: Syn, high: nat, low: nat)
    requires Bound(s, high) && low <= high
    ensures Bound(s, low)
    decreases s
  {
    hide Edge, RuleOf, RightPrecedence, BoundList, BoundItems, BoundElse;
    match s
    case Infix(l, _, _) => BoundLower(l, high, low);
    case Ternary(c, _, _) => BoundLower(c, high, low);
    case Call(f, _) => BoundLower(f, high, low);
    case Index(b, _) => BoundLower(b, high, low);
    case Dot(l, _) => BoundLower(l, high, low);
    case _ =>
  }

  lemma {:induction false} OperandEdge(s: Syn)
    requires IsOperand(s)
    ensures PREC_UNARY <= Edge(s) && !s.Infix?
  {
    hide Shaped, Bound, Edge, RuleOf;
    EdgeIsRight(s, PREC_FACTOR);
    if s.Infix? { InfixPrecedence(s); }
  }

  lemma {:induction false} InfixPrecedence(s: Syn)
    requires s.Infix? && Shaped(s)
    ensures Precedence(s.infix) <= PREC_FACTOR
  {
  }

  lemma {:induction false} LeftFoldIsWellBound(first: Syn, links: seq<Link>, prec: nat)
    requires IsChain(first, links) && prec < PREC_CMP
    ensures WellBound(LeftFold(first, links), prec) && PREC_FACTOR <= Edge(LeftFold(first, links))
    ensures Yield(LeftFold(first, links)) == ChainYield(first, links)
    decreases |links|
  {
    hide RuleOf;
    if links == [] {
      hide Shaped, Bound, Edge, Yield;
      BoundLower(first, PREC_FACTOR, prec);
      OperandEdge(first);
    } else {
      hide Shaped, Bound, Edge, IsBinary, IsInfix, Fixed;
      var n := |links| - 1;
      LeftFoldIsWellBound(first, links[..n], prec);
      OperandEdge(links[n].operand);
      BinaryPrecedence(links[n].op);
      AddLink(LeftFold(first, links[..n]), links[n], prec);
    }
  }

  lemma {:induction false} AddLink(l: Syn, link: Link, prec: nat)
    requires WellBound(l, prec) && PREC_FACTOR <= Edge(l) && IsOperand(link.operand) && PREC_UNARY <= Edge(link.operand)
    requires IsInfix(link.op) && prec < Precedence(link.op) <= PREC_FACTOR == RightPrecedence(link.op)
    ensures WellBound(Infix(l, link.op, link.operand), prec)
    ensures Edge(Infix(l, link.op, link.operand)) == PREC_FACTOR
  {
    hide RuleOf, Precedence, RightPrecedence, IsInfix;
  }

  /** Whatever the operators of a chain, the parser returns its left fold. */
  lemma {:induction false} ChainParsesLeft(ts: seq<Tok>, pos: nat, first: Syn, links: seq<Link>, prec: nat)
    requires IsChain(first, links) && prec < PREC_CMP && StandsAt(ts, pos, LeftFold(first, links), prec)
    ensures TokensAt(ts, pos, ChainYield(first, links))
    ensures Expr(ts, pos, prec) == Done(LeftFold(first, links), pos + |ChainYield(first, links)|, 0)
  {
    hide IsChain, LeftFold, ChainYield, Yield, Expr;
    LeftFoldIsWellBound(first, links, prec);
    ExpressionRoundTrip(ts, pos, LeftFold(first, links), prec);
  }

  // ----- The layered grammar -----

  /** A chain node: a binary operation that is not hidden inside an operand. */
  ghost predicate IsNode(s: Syn) {
    s.Infix? && IsBinary(s.infix)
  }

  /**
   A derivation of the layered grammar at a level: a comparison is a term or a comparison, an
   operator and a term; a term is a factor or a term, an operator and a factor; and so on.

   The comment at src/parser.c:788-792 writes `term, { op, term }`, which does not say how a chain
   groups (its last line even repeats its own left side). This is its left-associative reading.
   */
  ghost predicate Layered(s: Syn, level: nat)
    decreases s
  {
    IsNode(s) ==>
      level <= Precedence(s.infix) && Layered(s.lhs, Precedence(s.infix)) && Layered(s.rhs, Precedence(s.infix) + 1)
  }

  ghost function First(s: Syn): Syn {
    if IsNode(s) then First(s.lhs) else s
  }

  ghost function Links(s: Syn): seq<Link> {
    if IsNode(s) then Links(s.lhs) + [Link(s.infix, First(s.rhs))] + Links(s.rhs) else []
  }

  /** Precedence never increases from one operator to the next. */
  ghost predicate NonIncreasing(links: seq<Link>) {
    forall i :: 0 < i < |links| ==> Precedence(links[i].op) <= Precedence(links[i - 1].op)
  }

  ghost function Last(links: seq<Link>): nat
    requires links != []
  {
    Precedence(links[|links| - 1].op)
  }

  lemma {:induction false} LeftFoldLayered(first: Syn, links: seq<Link>, level: nat)
    requires IsChain(first, links)
    ensures Layered(LeftFold(first, links), level) <==> NonIncreasing(links) && (links != [] ==> level <= Last(links))
    decreases |links|
  {
    hide RuleOf, Precedence, IsOperand, IsBinary;
    if links == [] {
      OperandEdge(first);
    } else {
      var n := |links| - 1;
      var front := links[..n];
      LeftFoldLayered(first, front, Precedence(links[n].op));
      OperandEdge(links[n].operand);
      if NonIncreasing(front) && (front != [] ==> Precedence(links[n].op) <= Last(front)) {
        assert NonIncreasing(links);
      }
      if NonIncreasing(links) { assert front != [] ==> Last(front) == Precedence(links[n - 1].op); }
    }
  }

  lemma {:induction false} LeftFoldLinks(first: Syn, links: seq<Link>)
    requires IsChain(first, links)
    ensures First(LeftFold(first, links)) == first && Links(LeftFold(first, links)) == links
    decreases |links|
  {
    hide RuleOf, IsOperand;
    if links == [] {
      OperandEdge(first);
    } else {
      var n := |links| - 1;
      LeftFoldLinks(first, links[..n]);
      OperandEdge(links[n].operand);
      assert links == links[..n] + [links[n]] + [];
      assert links[n] == Link(links[n].op, links[n].operand);
    }
  }

  /** The code's grouping of a chain is a derivation of the layered grammar just when precedence never increases. */
  lemma {:induction false} ChainIsLayeredIff(first: Syn, links: seq<Link>)
    requires IsChain(first, links)
    ensures Layered(LeftFold(first, links), PREC_CMP) <==> NonIncreasing(links)
  {
    LeftFoldLayered(first, links, PREC_CMP);
    if links != [] { BinaryPrecedence(links[|links| - 1].op); }
  }

  // ----- The layered tree of a chain -----

  /** The position of the last operator of least precedence. */
  ghost function Split(links: seq<Link>): (k: nat)
    requires links != []
    ensures k < |links|
    ensures forall i :: 0 <= i < |links| ==> Precedence(links[k].op) <= Precedence(links[i].op)
    ensures forall i :: k < i < |links| ==> Precedence(links[k].op) < Precedence(links[i].op)
  {
    var n := |links| - 1;
    if n == 0 then 0
    else
      var k := Split(links[..n]);
      assert forall i :: 0 <= i < n ==> links[..n][i] == links[i];
      if Precedence(links[n].op) <= Precedence(links[k].op) then n else k
  }

  /** The tree of the layered grammar: loosest operator on top, the last one of a kind first. */
  ghost function LayeredTree(first: Syn, links: seq<Link>): Syn
    decreases |links|
  {
    if links == [] then first
    else
      var k := Split(links);
      Infix(LayeredTree(first, links[..k]), links[k].op, LayeredTree(links[k].operand, links[k + 1..]))
  }

  /** `s` groups the chain in some way, keeping its operands in order. */
  ghost predicate Groups(s: Syn, first: Syn, links: seq<Link>) {
    First(s) == first && Links(s) == links
  }

  ghost predicate AtLeast(links: seq<Link>, level: nat) {
    forall i :: 0 <= i < |links| ==> level <= Precedence(links[i].op)
  }

  lemma {:induction false} SplitChain(first: Syn, links: seq<Link>, level: nat)
    requires IsChain(first, links) && AtLeast(links, level) && links != []
    ensures var k := Split(links);
            var q := Precedence(links[k].op);
            && level <= q && IsBinary(links[k].op)
            && IsChain(first, links[..k]) && AtLeast(links[..k], q)
            && IsChain(links[k].operand, links[k + 1..]) && AtLeast(links[k + 1..], q + 1)
            && links == links[..k] + [Link(links[k].op, links[k].operand)] + links[k + 1..]
  {
    hide RuleOf, Precedence, IsOperand, IsBinary;
    var k := Split(links);
    var tail := links[k + 1..];
    assert forall i :: 0 <= i < |tail| ==> tail[i] == links[k + 1 + i];
  }

  lemma {:induction false} LayeredTreeIsLayered(first: Syn, links: seq<Link>, level: nat)
    requires IsChain(first, links) && AtLeast(links, level)
    ensures Layered(LayeredTree(first, links), level) && Groups(LayeredTree(first, links), first, links)
    decreases |links|
  {
    hide RuleOf, Precedence, IsChain, AtLeast, Split, IsBinary, Layered, Groups;
    if links == [] {
      LoneOperand(first, level);
    } else {
      var k := Split(links);
      SplitChain(first, links, level);
      LayeredTreeIsLayered(first, links[..k], Precedence(links[k].op));
      LayeredTreeIsLayered(links[k].operand, links[k + 1..], Precedence(links[k].op) + 1);
      JoinLayers(LayeredTree(first, links[..k]), links[k], LayeredTree(links[k].operand, links[k + 1..]),
                 first, links[..k], links[k + 1..], level);
    }
  }

  lemma {:induction false} LoneOperand(first: Syn, level: nat)
    requires IsChain(first, [])
    ensures Layered(first, level) && Groups(first, first, [])
  {
    hide RuleOf, IsOperand;
    OperandEdge(first);
  }

  lemma {:induction false} JoinLayers(l: Syn, link: Link, r: Syn, first: Syn, before: seq<Link>, after: seq<Link>, level: nat)
    requires IsBinary(link.op) && level <= Precedence(link.op)
    requires Layered(l, Precedence(link.op)) && Groups(l, first, before)
    requires Layered(r, Precedence(link.op) + 1) && Groups(r, link.operand, after)
    ensures Layered(Infix(l, link.op, r), level)
    ensures Groups(Infix(l, link.op, r), first, before + [Link(link.op, link.operand)] + after)
  {
    hide RuleOf, Precedence, IsBinary;
  }

  lemma {:induction false} SplitIs(links: seq<Link>, k: nat)
    requires k < |links|
    requires forall i :: 0 <= i < k ==> Precedence(links[k].op) <= Precedence(links[i].op)
    requires forall i :: k < i < |links| ==> Precedence(links[k].op) < Precedence(links[i].op)
    ensures Split(links) == k
  {
    hide Split, Precedence;
    var j := Split(links);
    var pj, pk := Precedence(links[j].op), Precedence(links[k].op);
    assert pj <= pk && pk <= pj;
    assert j < k ==> pj < pk;
  }

  /** A layered derivation splits its chain at the last operator of least precedence. */
  lemma {:induction false} LayeredSplits(s: Syn, level: nat)
    requires Layered(s, level)
    ensures AtLeast(Links(s), level)
    ensures IsNode(s) ==> Links(s) != [] && Split(Links(s)) == |Links(s.lhs)|
    decreases s
  {
    hide RuleOf, Precedence, IsBinary, Split;
    if IsNode(s) {
      var q := Precedence(s.infix);
      LayeredSplits(s.lhs, q);
      LayeredSplits(s.rhs, q + 1);
      var a, b, links := Links(s.lhs), Links(s.rhs), Links(s);
      LinksJoin(a, Link(s.infix, First(s.rhs)), b, links);
      SplitIs(links, |a|);
    }
  }

  lemma {:induction false} LinksJoin(a: seq<Link>, link: Link, b: seq<Link>, links: seq<Link>)
    requires links == a + [link] + b && AtLeast(a, Precedence(link.op)) && AtLeast(b, Precedence(link.op) + 1)
    ensures |a| < |links| && links[|a|] == link && AtLeast(links, Precedence(link.op))
    ensures forall i :: 0 <= i < |a| ==> Precedence(links[|a|].op) <= Precedence(links[i].op)
    ensures forall i :: |a| < i < |links| ==> Precedence(links[|a|].op) < Precedence(links[i].op)
  {
    hide Precedence;
    assert forall i :: 0 <= i < |a| ==> links[i] == a[i];
    assert forall i :: |a| < i < |links| ==> links[i] == b[i - |a| - 1];
  }

  /** The layered grammar is unambiguous on chains: any derivation of one is its layered tree. */
  lemma {:induction false} LayeredTreeIsUnique(s: Syn, level: nat)
    requires Layered(s, level)
    ensures s == LayeredTree(First(s), Links(s))
    decreases s
  {
    hide RuleOf, Precedence, IsBinary;
    if IsNode(s) {
      var links, k := Links(s), |Links(s.lhs)|;
      LayeredSplits(s, level);
      LayeredTreeIsUnique(s.lhs, Precedence(s.infix));
      LayeredTreeIsUnique(s.rhs, Precedence(s.infix) + 1);
      assert links[..k] == Links(s.lhs) && links[k + 1..] == Links(s.rhs);
      assert links[k] == Link(s.infix, First(s.rhs));
    }
  }

  // ----- Trees keep the grouping although they forget the operators -----

  /** The binary operations at the top of a tree, and whatever they join counted as one. */
  ghost function Weight(t: Tree): nat {
    match t
    case BinaryTree(l, r) => Weight(l) + 1 + Weight(r)
    case _ => 1
  }

  ghost function LinksWeight(links: seq<Link>): nat {
    if links == [] then 0
    else LinksWeight(links[..|links| - 1]) + 1 + Weight(Erase(links[|links| - 1].operand))
  }

  lemma {:induction false} LinksWeightAppend(a: seq<Link>, b: seq<Link>)
    ensures LinksWeight(a + b) == LinksWeight(a) + LinksWeight(b)
    decreases |b|
  {
    hide Erase;
    if b == [] {
      assert a + b == a;
    } else {
      var n := |b| - 1;
      assert (a + b)[..|a + b| - 1] == a + b[..n];
      LinksWeightAppend(a, b[..n]);
    }
  }

  lemma {:induction false} NodeTree(s: Syn)
    requires IsNode(s)
    ensures Erase(s) == BinaryTree(Erase(s.lhs), Erase(s.rhs))
  {
  }

  /** The size of a grouping's tree depends only on the chain. */
  lemma {:induction false} GroupWeight(s: Syn)
    ensures Weight(Erase(s)) == Weight(Erase(First(s))) + LinksWeight(Links(s))
    decreases s
  {
    hide Erase, IsBinary;
    if IsNode(s) {
      var link := Link(s.infix, First(s.rhs));
      NodeTree(s);
      GroupWeight(s.lhs);
      GroupWeight(s.rhs);
      LinksWeightAppend(Links(s.lhs) + [link], Links(s.rhs));
      LinksWeightAppend(Links(s.lhs), [link]);
      assert [link][..0] == [];
      assert LinksWeight([link]) == 1 + Weight(Erase(First(s.rhs)));
    }
  }

  /** Appending links makes a chain's tree strictly bigger. */
  lemma {:induction false} LongerIsBigger(a: seq<Link>, b: seq<Link>)
    requires |a| < |b| && a == b[..|a|]
    ensures LinksWeight(a) < LinksWeight(b)
  {
    hide Erase;
    LinksWeightAppend(a, b[|a|..]);
    assert b == a + b[|a|..];
  }

  /** Two groupings of one chain with equal trees are the same grouping. */
  lemma {:induction false} GroupingIsVisible(s1: Syn, s2: Syn)
    requires First(s1) == First(s2) && Links(s1) == Links(s2) && Erase(s1) == Erase(s2)
    ensures s1 == s2
    decreases s1
  {
    hide Erase, IsBinary, LinksWeight;
    if IsNode(s1) || IsNode(s2) {
      assert IsNode(s1) ==> Links(s1) != [];
      assert IsNode(s2) ==> Links(s2) != [];
      NodeTree(s1);
      NodeTree(s2);
      GroupWeight(s1.lhs);
      GroupWeight(s2.lhs);
      var l1, l2, links := Links(s1.lhs), Links(s2.lhs), Links(s1);
      assert l1 == links[..|l1|] && l2 == links[..|l2|];
      if |l1| < |l2| { LongerIsBigger(l1, l2); }
      if |l2| < |l1| { LongerIsBigger(l2, l1); }
      assert links[|l1|] == Link(s1.infix, First(s1.rhs)) == Link(s2.infix, First(s2.rhs));
      assert links[|l1| + 1..] == Links(s1.rhs) == Links(s2.rhs);
      GroupingIsVisible(s1.lhs, s2.lhs);
      GroupingIsVisible(s1.rhs, s2.rhs);
    }
  }

  /** The parser's tree of a chain is the layered grammar's tree if and only if precedence never increases. */
  lemma {:induction false} CodeAgreesWithGrammarIff(first: Syn, links: seq<Link>)
    requires IsChain(first, links)
    ensures Erase(LeftFold(first, links)) == Erase(LayeredTree(first, links)) <==> NonIncreasing(links)
  {
    hide Erase, RuleOf, IsOperand, IsBinary;
    var code, doc := LeftFold(first, links), LayeredTree(first, links);
    ChainIsLayeredIff(first, links);
    LeftFoldLinks(first, links);
    forall i | 0 <= i < |links| ensures PREC_CMP <= Precedence(links[i].op) { BinaryPrecedence(links[i].op); }
    LayeredTreeIsLayered(first, links, PREC_CMP);
    if NonIncreasing(links) { LayeredTreeIsUnique(code, PREC_CMP); }
    if Erase(code) == Erase(doc) { GroupingIsVisible(code, doc); }
  }
}
