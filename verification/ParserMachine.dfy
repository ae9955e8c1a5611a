/**
 The parser as it runs: a cursor over the token array, a node pool that only grows, an arena for lists,
 an error count. The children of a node are the pointers as they are written; the lists among them stand
 in the arena, where later requests can lose them.
 */
module ParserMachine {
  import opened Tokens
  import opened Numbers
  import opened Syntax
  import opened ParserSpec
  import opened Pool
  import opened Layout
  import opened ParserSteps
  import opened StatementSteps
  import opened Placement
  import opened PoolTheorems
  import opened Heaps
  import opened HeldTrees
  import opened HeapTheorems
  import opened HeapShapes
  import opened Handlers
  import Converse

  /** The outcome of a parsing call: its value, or the reason for which the process cannot go on. */
  datatype Exit<+T> = Stop(why: Reason) | Value(value: T) {
    predicate IsFailure() { Stop? }
    function PropagateFailure<U>(): Exit<U>
      requires Stop?
    {
      Stop(why)
    }
    function Extract(): T
      requires Value?
    {
      value
    }
  }

  class Parser {
    const tokens: seq<Tok>
    const nodes: array<Node>
    const room: nat   // the size of the arena
    var pos: nat
    var nodeCount: nat
    var errorCount: nat
    var heap: Heap

    /** Number tokens hold no dot, so that every number takes the integer branch. `mem` is what the arena holds already. */
    constructor (tokens: seq<Tok>, nodes: array<Node>, mem: seq<Cell>, room: nat)
      requires |mem| <= room && forall t :: t in tokens && t.kind == TNum ==> '.' !in t.text
      ensures this.tokens == tokens && this.nodes == nodes && this.room == room
      ensures Valid() && pos == 0 && errorCount == 0 && Pool() == [] && heap == Heap(mem, map[])
    {
      this.tokens := tokens;
      this.nodes := nodes;
      this.room := room;
      pos, nodeCount, errorCount := 0, 0, 0;
      heap := Heap(mem, map[]);
    }

    ghost predicate Valid()
      reads this`nodeCount, this`heap
    {
      nodeCount <= nodes.Length && |heap.mem| <= room
    }

    /** The nodes allocated so far. */
    ghost function Pool(): seq<Node>
      reads this`nodeCount, this`heap, nodes
      requires Valid()
    {
      nodes[..nodeCount]
    }

    /**
     The machine did what `run` says: the tree's slice follows `prefix` in the pool, and the heap `before`
     has become what building the tree makes of it. The process stops when the run does, or because the pool or
     the arena is exhausted: if the run goes through, then only when they are too small for the tree.
     */
    ghost predicate Answers(run: Run<Tree>, prefix: seq<Node>, errors: nat, before: Heap, out: Exit<Ref>)
      reads this, nodes
    {
      && Valid()
      && match out
         case Stop(why) =>
           if run.Halt? then why == run.why || why == PoolFull || why == ArenaFull
           else || (why == PoolFull && |prefix| + Size(run.value) > nodes.Length)
                || (why == ArenaFull && |Build(run.value, |prefix|, before).mem| > room)
         case Value(ref) =>
           && run.Done? && pos == run.pos && errorCount == errors + run.errors
           && Pool() == prefix + Flatten(run.value, |prefix|) && ref == Root(run.value, |prefix|)
           && heap == Build(run.value, |prefix|, before)
    }

    /** The same for a list of trees laid out one after another, and the array of pointers to them. */
    ghost predicate AnswersList(run: Run<seq<Tree>>, prefix: seq<Node>, errors: nat, before: Heap, out: Exit<(seq<Ref>, Slots)>)
      reads this, nodes
    {
      && Valid()
      && match out
         case Stop(why) =>
           if run.Halt? then why == run.why || why == PoolFull || why == ArenaFull
           else || (why == PoolFull && |prefix| + Sizes(run.value) > nodes.Length)
                || (why == ArenaFull && |PushArgs(run.value, |prefix|, before).heap.mem| > room)
         case Value(list) =>
           && run.Done? && pos == run.pos && errorCount == errors + run.errors
           && Pool() == prefix + FlattenAll(run.value, |prefix|) && list.0 == Roots(run.value, |prefix|)
           && Pushed(heap, list.1) == PushArgs(run.value, |prefix|, before)
    }

    method NewNode(data: Data, children: seq<Ref>) returns (out: Exit<nat>)
      requires Valid()
      modifies this`nodeCount, this`errorCount, nodes
      ensures Valid() && out.Value? == (old(nodeCount) < nodes.Length)
      ensures out.Value? ==> out.value == old(nodeCount) && errorCount == old(errorCount)
      ensures out.Value? ==> Pool() == old(Pool()) + [Node(data, children)]
      ensures out.Stop? ==> out.why == PoolFull
    {
      if nodeCount >= nodes.Length {
        RaiseError();
        return Stop(PoolFull);
      }
      out := Value(nodeCount);
      nodes[nodeCount] := Node(data, children);
      nodeCount := nodeCount + 1;
    }

    method RaiseError()
      modifies this`errorCount
      ensures errorCount == old(errorCount) + 1
    {
      errorCount := errorCount + 1;
    }

    /** Fills in a node allocated earlier, between the nodes `before` and `after` it. */
    method SetNode(i: nat, node: Node, ghost before: seq<Node>, ghost after: seq<Node>)
      requires Valid() && i == |before| < nodeCount && Pool() == before + [Pool()[i]] + after
      modifies nodes
      ensures Valid() && Pool() == before + [node] + after
    {
      nodes[i] := node;
    }

    /** The same when nothing was allocated since. */
    method SetLast(i: nat, node: Node, ghost before: seq<Node>)
      requires Valid() && i == |before| < nodeCount && Pool() == before + [Pool()[i]]
      modifies nodes
      ensures Valid() && Pool() == before + [node]
    {
      nodes[i] := node;
    }

    /** `realloc_array` for one more element of `unit` bytes; without room a null pointer is written to. */
    method ReserveSlot(s: Slots, unit: nat) returns (out: Exit<Slots>)
      requires Valid() && 0 < unit && Within(heap, s)
      modifies this`heap
      ensures Valid()
      ensures out.Value? ==> Pushed(heap, out.value) == Reserve(old(heap), s, unit)
      ensures out.Stop? ==> out.why == ArenaFull && |Reserve(old(heap), s, unit).heap.mem| > room
    {
      var p := Reserve(heap, s, unit);
      if |p.heap.mem| > room { return Stop(ArenaFull); }
      heap := p.heap;
      out := Value(p.slots);
    }

    method Match(k: TokenType) returns (out: Exit<bool>)
      modifies this`pos
      ensures out.Stop? ==> out.why == OffTokens && old(pos) >= |tokens|
      ensures out.Value? ==> old(pos) < |tokens| && out.value == (tokens[old(pos)].kind == k)
      ensures pos == if out.Value? && out.value then old(pos) + 1 else old(pos)
    {
      if pos >= |tokens| { return Stop(OffTokens); }
      out := Value(tokens[pos].kind == k);
      if out.value { pos := pos + 1; }
    }

    method ExpectToken(k: TokenType) returns (out: Exit<bool>)
      modifies this`pos, this`errorCount
      ensures match Expect(tokens, old(pos), k)
              case Halt(why) => out == Stop(why) && errorCount == old(errorCount)
              case Done(found, end, errors) => out == Value(found) && pos == end && errorCount == old(errorCount) + errors
    {
      if pos >= |tokens| { return Stop(OffTokens); }
      out := Value(tokens[pos].kind == k);
      if out.value { pos := pos + 1; } else { RaiseError(); }
    }

    // ----- Expressions -----

    /** The token just consumed is handled by the prefix handler `h`. */
    ghost predicate AtPrefix(h: PrefixHandler)
      reads this
    {
      Valid() && 0 < pos <= |tokens| && RuleOf(tokens[pos - 1].kind).prefix == h
    }

    /** The operator just consumed is handled by `h`, and its left operand ends the pool. */
    ghost predicate AtInfix(h: InfixHandler, lhs: Ref, l: Syn, prefix: seq<Node>, before: Heap)
      reads this, nodes
    {
      && Valid() && 0 < pos <= |tokens|
      && RuleOf(tokens[pos - 1].kind).infix == h && Precedence(tokens[pos - 1].kind) > PREC_NONE
      && Pool() == prefix + Flatten(Erase(l), |prefix|) && lhs == Root(Erase(l), |prefix|)
      && heap == Build(Erase(l), |prefix|, before)
    }

    /** The operand built so far follows `prefix` in the pool. */
    ghost predicate LeftSoFar(l: Syn, lhs: Ref, prefix: seq<Node>, before: Heap)
      reads this`nodeCount, this`heap, nodes
    {
      && Valid() && Pool() == prefix + Flatten(Erase(l), |prefix|) && lhs == Root(Erase(l), |prefix|)
      && heap == Build(Erase(l), |prefix|, before)
    }

    /** With an operator after it, it is that operator's left operand. */
    lemma LeftIsOperand(l: Syn, lhs: Ref, prefix: seq<Node>, before: Heap)
      requires LeftSoFar(l, lhs, prefix, before) && 0 < pos <= |tokens| && Precedence(tokens[pos - 1].kind) > PREC_NONE
      ensures AtInfix(RuleOf(tokens[pos - 1].kind).infix, lhs, l, prefix, before)
    {
      hide Flatten, Build, Root, Erase, RuleOf;
    }

    /** What a handler has answered is the operand of the next operator. */
    lemma LeftTaken(r: Run<Syn>, lhs: Ref, prefix: seq<Node>, errors: nat, before: Heap)
      requires Answers(Erased(r), prefix, errors, before, Value(lhs))
      ensures r.Done? && LeftSoFar(r.value, lhs, prefix, before) && pos == r.pos && errorCount == errors + r.errors
    {
      hide Flatten, Build, Root, Erase;
    }

    /** And when no operator follows, it is the answer. */
    lemma LeftAnswers(r: Run<Syn>, lhs: Ref, prefix: seq<Node>, errors: nat, before: Heap)
      requires r.Done? && LeftSoFar(r.value, lhs, prefix, before) && pos == r.pos && errorCount == errors + r.errors
      ensures Answers(Erased(r), prefix, errors, before, Value(lhs))
    {
      hide Flatten, Build, Root, Erase, Size;
    }

    /** What was built so far is part of what the whole run builds. */
    lemma {:induction false} LoopGoesOn(r: Run<Syn>, whole: Run<Syn>, errors: nat, prec: nat, base: nat, before: Heap)
      requires r.Halt? ==> whole == Halt(r.why)
      requires r.Done? ==> whole == Loop(tokens, r.pos, r.value, prec).After(r.errors).After(errors)
      ensures r.Halt? ==> whole.Halt? && whole.why == r.why
      ensures r.Done? && whole.Done? ==>
                && Size(Erase(r.value)) <= Size(Erase(whole.value))
                && |Build(Erase(r.value), base, before).mem| <= |Build(Erase(whole.value), base, before).mem|
    {
      hide Loop, Size, Erase, Build;
      if r.Done? {
        LoopGrows(tokens, r.pos, r.value, prec);
        LoopBuilds(tokens, r.pos, r.value, prec, base, before);
      }
    }

    method ParseExprPrec(prec: nat) returns (out: Exit<Ref>)
      requires Valid()
      modifies this, nodes
      ensures Answers(Erased(Expr(tokens, old(pos), prec)), old(Pool()), old(errorCount), old(heap), out)
      decreases |tokens| - pos, 10
    {
      hide AtInfix, LeftSoFar, Prefix, Prefixed, Expr, Loop, Extend, Extended, Flatten, Build, Root, RuleOf, Precedence;
      hide BuildsOn, Erase, Size;
      if pos >= |tokens| { NoToken(tokens, pos, prec); return Stop(OffTokens); }
      ghost var start, prefix, before := pos, Pool(), heap;
      ghost var errors: nat := 0;
      ghost var whole := Expr(tokens, start, prec);
      ExprRun(tokens, start, prec);
      NullTree(|prefix|);
      HeapNone(|prefix|, before);

      var kind := tokens[pos].kind;
      pos := pos + 1;
      if RuleOf(kind).prefix.NoPrefix? {
        RaiseError();
        return Value(None);
      }
      ghost var head := Prefix(tokens, start);
      PrefixedNext(tokens, start);
      LoopGoesOn(head, whole, 0, prec, |prefix|, before);
      var lhs :- ParsePrefix();
      LeftTaken(head, lhs, prefix, old(errorCount), before);
      ghost var l := head.value;
      errors := head.errors;

      while true
        invariant Valid() && start < pos && errorCount == old(errorCount) + errors
        invariant LeftSoFar(l, lhs, prefix, before) && whole == Loop(tokens, pos, l, prec).After(errors)
        decreases |tokens| - pos
      {
        if pos >= |tokens| { NoOperator(tokens, pos, l, prec); return Stop(OffTokens); }
        LoopRun(tokens, pos, l, prec);
        kind := tokens[pos].kind;
        if Precedence(kind) <= prec { break; }
        ghost var longer := Extend(tokens, pos, l);
        ExtendedNext(tokens, pos, l);
        LoopGoesOn(longer, whole, errors, prec, |prefix|, before);
        pos := pos + 1;
        LeftIsOperand(l, lhs, prefix, before);
        lhs :- ParseInfix(lhs, l, prefix, before);
        LeftTaken(longer, lhs, prefix, old(errorCount) + errors, before);
        l := longer.value;
        errors := errors + longer.errors;
      }
      LeftAnswers(whole, lhs, prefix, old(errorCount), before);
      out := Value(lhs);
    }

    method ParsePrefix() returns (out: Exit<Ref>)
      requires Valid() && 0 < pos <= |tokens| && !RuleOf(tokens[pos - 1].kind).prefix.NoPrefix?
      modifies this, nodes
      ensures Answers(Prefixed(tokens, old(pos)), old(Pool()), old(errorCount), old(heap), out)
      decreases |tokens| - pos, 30
    {
      hide Prefixed, Flatten, Build, Root, Erase, Size, RuleOf;
      if RuleOf(tokens[pos - 1].kind).prefix.ForPrefix? { ForHere(tokens, pos); }
      match RuleOf(tokens[pos - 1].kind).prefix
      case NumberPrefix => out := ParseNumber();
      case StringPrefix => out := ParseString();
      case IdentifierPrefix => out := ParseName();
      case NilPrefix => out := ParseNil();
      case BoolPrefix => out := ParseBool();
      case GroupingPrefix => out := ParseGrouping();
      case ArrayPrefix => out := ParseArrayLit();
      case UnaryPrefix => out := ParseUnary();
      case IfPrefix => IfHere(tokens, pos); out := ParseIfExpr();
      case ForPrefix => out := Stop(ForExpression);
    }

    method ParseInfix(lhs: Ref, ghost l: Syn, ghost prefix: seq<Node>, ghost before: Heap) returns (out: Exit<Ref>)
      requires 0 < pos <= |tokens| && AtInfix(RuleOf(tokens[pos - 1].kind).infix, lhs, l, prefix, before)
      modifies this, nodes
      ensures Answers(Extended(tokens, old(pos), l), prefix, old(errorCount), before, out)
      decreases |tokens| - pos, 30
    {
      hide Extended, Flatten, Build, Root, Erase, Size, RuleOf;
      CommaHere(tokens, pos, l);
      match RuleOf(tokens[pos - 1].kind).infix
      case BinaryInfix => out := ParseBinary(lhs, l, prefix, before);
      case RangeInfix => out := ParseRange(lhs, l, prefix, before);
      case TernaryInfix => out := ParseTernary(lhs, l, prefix, before);
      case AssignInfix => out := ParseAssign(lhs, l, prefix, before);
      case CallInfix => out := ParseCall(lhs, l, prefix, before);
      case IndexInfix => out := ParseIndex(lhs, l, prefix, before);
      case DotInfix => out := ParseDot(lhs, l, prefix, before);
      case CommaInfix => out := Stop(CommaOperator);
    }

    method ParseUnary() returns (out: Exit<Ref>)
      requires AtPrefix(UnaryPrefix)
      modifies this, nodes
      ensures Answers(Prefixed(tokens, old(pos)), old(Pool()), old(errorCount), old(heap), out)
      decreases |tokens| - pos, 20
    {
      hide Prefixed, Erased, Expr, Flatten, Build, Root, RuleOf, Erase, Size;
      UnaryHere(tokens, pos);
      ghost var e := Erased(Expr(tokens, pos, PREC_UNARY));
      if e.Done? {
        LayUnary(tokens[pos - 1].kind, e.value, nodeCount);
        HeapFirst(UnaryTree(tokens[pos - 1].kind, e.value), e.value, nodeCount, heap);
      }

      var op := tokens[pos - 1].kind;
      var node :- NewNode(UnaryData(op), [None]);
      var operand :- ParseExprPrec(PREC_UNARY);
      SetNode(node, Node(UnaryData(op), [operand]), old(Pool()), Flatten(e.value, node + 1));
      out := Value(Some(node));
    }

    /** Fills in the node of the tree `t` between its two operands once both are built. */
    method SetPair(i: nat, ghost empty: Node, data: Data, lhs: Ref, rhs: Ref, ghost prefix: seq<Node>, ghost t: Tree, ghost l: Tree,
                   ghost r: Tree)
      requires Valid() && IsPair(t, l, r) && data == DataOf(t) && lhs == Root(l, |prefix|) && rhs == Root(r, i + 1)
      requires i == |prefix + Flatten(l, |prefix|)|
      requires Pool() == prefix + Flatten(l, |prefix|) + [empty] + Flatten(r, i + 1)
      modifies nodes
      ensures Valid() && Pool() == prefix + Flatten(t, |prefix|)
    {
      hide IsPair, Flatten, Root, Size, DataOf;
      assert Pool()[i] == empty;
      PlacePair(prefix, t, data, l, r);
      SetNode(i, Node(data, [lhs, rhs]), prefix + Flatten(l, |prefix|), Flatten(r, i + 1));
    }

    method ParseBinary(lhs: Ref, ghost l: Syn, ghost prefix: seq<Node>, ghost before: Heap) returns (out: Exit<Ref>)
      requires AtInfix(BinaryInfix, lhs, l, prefix, before)
      modifies this, nodes
      ensures Answers(Extended(tokens, old(pos), l), prefix, old(errorCount), before, out)
      decreases |tokens| - pos, 20
    {
      hide Precedence, Extended, Erased, Expr, Flatten, Build, Root, RuleOf, Erase, Size;
      BinaryHere(tokens, pos, l);
      ghost var e := Erased(Expr(tokens, pos, PREC_FACTOR));
      ghost var t := if e.Done? then BinaryTree(Erase(l), e.value) else NoTree;
      if e.Done? {
        PairSize(t, Erase(l), e.value, |prefix|);
        HeapPair(t, Erase(l), e.value, |prefix|, before);
      }

      var node :- NewNode(BinaryData, [None, None]);
      var rhs :- ParseExprPrec(PREC_FACTOR);
      SetPair(node, Node(BinaryData, [None, None]), BinaryData, lhs, rhs, prefix, t, Erase(l), e.value);
      out := Value(Some(node));
    }

    method ParseRange(lhs: Ref, ghost l: Syn, ghost prefix: seq<Node>, ghost before: Heap) returns (out: Exit<Ref>)
      requires AtInfix(RangeInfix, lhs, l, prefix, before)
      modifies this, nodes
      ensures Answers(Extended(tokens, old(pos), l), prefix, old(errorCount), before, out)
      decreases |tokens| - pos, 20
    {
      hide Precedence, Extended, Erased, Expr, Flatten, Build, Root, RuleOf, Erase, Size;
      RangeHere(tokens, pos, l);
      var inclusive := tokens[pos - 1].kind == TDotDotEq;
      ghost var e := Erased(Expr(tokens, pos, PREC_RANGE));
      if e.Done? {
        PairSize(RangeTree(Erase(l), inclusive, e.value), Erase(l), e.value, |prefix|);
        HeapPair(RangeTree(Erase(l), inclusive, e.value), Erase(l), e.value, |prefix|, before);
      }

      var data := RangeData(inclusive);
      var node :- NewNode(data, [lhs, None]);
      var rhs :- ParseExprPrec(PREC_RANGE);
      SetPair(node, Node(data, [lhs, None]), data, lhs, rhs, prefix, RangeTree(Erase(l), inclusive, e.value), Erase(l), e.value);
      out := Value(Some(node));
    }

    method ParseAssign(lhs: Ref, ghost l: Syn, ghost prefix: seq<Node>, ghost before: Heap) returns (out: Exit<Ref>)
      requires AtInfix(AssignInfix, lhs, l, prefix, before)
      modifies this, nodes
      ensures Answers(Extended(tokens, old(pos), l), prefix, old(errorCount), before, out)
      decreases |tokens| - pos, 20
    {
      hide Precedence, Extended, Erased, Expr, Flatten, Build, Root, RuleOf, Erase, Size;
      AssignHere(tokens, pos, l);
      ghost var e := Erased(Expr(tokens, pos, PREC_LOWEST));
      ghost var t := if e.Done? then AssignTree(Erase(l), e.value) else NoTree;
      if e.Done? {
        PairSize(t, Erase(l), e.value, |prefix|);
        HeapPair(t, Erase(l), e.value, |prefix|, before);
      }

      var node :- NewNode(AssignData, [lhs, None]);
      var rhs :- ParseExprPrec(PREC_LOWEST);
      SetPair(node, Node(AssignData, [lhs, None]), AssignData, lhs, rhs, prefix, t, Erase(l), e.value);
      out := Value(Some(node));
    }

    method ParseIndex(lhs: Ref, ghost l: Syn, ghost prefix: seq<Node>, ghost before: Heap) returns (out: Exit<Ref>)
      requires AtInfix(IndexInfix, lhs, l, prefix, before)
      modifies this, nodes
      ensures Answers(Extended(tokens, old(pos), l), prefix, old(errorCount), before, out)
      decreases |tokens| - pos, 20
    {
      hide Precedence, Expect, Extended, Erased, Expr, Flatten, Build, Root, RuleOf, Erase, Size;
      IndexHere(tokens, pos, l);
      ghost var e := Erased(Expr(tokens, pos, PREC_LOWEST));
      ghost var t := if e.Done? then IndexTree(Erase(l), e.value) else NoTree;
      if e.Done? {
        PairSize(t, Erase(l), e.value, |prefix|);
        HeapPair(t, Erase(l), e.value, |prefix|, before);
      }

      var node :- NewNode(IndexData, [lhs, None]);
      var index :- ParseExprPrec(PREC_LOWEST);
      SetPair(node, Node(IndexData, [lhs, None]), IndexData, lhs, index, prefix, t, Erase(l), e.value);
      var closed :- ExpectToken(TRSqBracket);
      out := Value(Some(node));
    }

    method ParseDot(lhs: Ref, ghost l: Syn, ghost prefix: seq<Node>, ghost before: Heap) returns (out: Exit<Ref>)
      requires AtInfix(DotInfix, lhs, l, prefix, before)
      modifies this, nodes
      ensures Answers(Extended(tokens, old(pos), l), prefix, old(errorCount), before, out)
      decreases |tokens| - pos, 20
    {
      hide Precedence, Extended, Flatten, Build, Root, RuleOf, Erase, Size;
      DotHere(tokens, pos, l);
      LayDot(Erase(l), None, |prefix|);
      HeapDot(Erase(l), None, |prefix|, before);
      if pos < |tokens| {
        LayDot(Erase(l), Some(tokens[pos].text), |prefix|);
        HeapDot(Erase(l), Some(tokens[pos].text), |prefix|, before);
      }

      var node :- NewNode(DotData(None), [lhs]);
      var found :- ExpectToken(TIdent);
      var member := if found then Some(tokens[pos - 1].text) else None;
      SetLast(node, Node(DotData(member), [lhs]), prefix + Flatten(Erase(l), |prefix|));
      out := Value(Some(node));
    }

    method ParseTernary(lhs: Ref, ghost l: Syn, ghost prefix: seq<Node>, ghost before: Heap) returns (out: Exit<Ref>)
      requires AtInfix(TernaryInfix, lhs, l, prefix, before)
      modifies this, nodes
      ensures Answers(Extended(tokens, old(pos), l), prefix, old(errorCount), before, out)
      decreases |tokens| - pos, 20
    {
      hide Precedence, Expect, Extended, Erased, Expr, Flatten, Build, Root, RuleOf, Erase, Size;
      TernaryHere(tokens, pos, l);
      ghost var run := Extended(tokens, pos, l);
      if run.Done? {
        PlaceTernary(prefix, Erase(l), run.value.yes, run.value.no);
        HeapTernary(Erase(l), run.value.yes, run.value.no, |prefix|, before);
      }

      ghost var left := prefix + Flatten(Erase(l), |prefix|);
      var node :- NewNode(TernaryData, [lhs, None, None]);
      var yes :- ParseExprPrec(PREC_LOWEST);
      var colon :- ExpectToken(TColon);
      var no :- ParseExprPrec(PREC_TERNARY);
      SetNode(node, Node(TernaryData, [lhs, yes, no]), left,
              Flatten(run.value.yes, node + 1) + Flatten(run.value.no, node + 1 + Size(run.value.yes)));
      out := Value(Some(node));
    }

    method ParseNumber() returns (out: Exit<Ref>)
      requires AtPrefix(NumberPrefix)
      modifies this, nodes
      ensures Answers(Prefixed(tokens, old(pos)), old(Pool()), old(errorCount), old(heap), out)
      decreases |tokens| - pos, 20
    {
      hide Prefixed, Flatten, Build, Root, RuleOf, Size, FittingNumeral;
      var tok := tokens[pos - 1];
      NumberHere(tokens, pos);
      LayLeaf(LeafTree(tok), nodeCount);
      HeapLeaf(LeafTree(tok), nodeCount, heap);
      var node :- NewNode(NumberData(0), []);
      var ok, value := StringToInt64(tok.text);
      if ok { SetLast(node, Node(NumberData(value as int), []), old(Pool())); } else { RaiseError(); }
      out := Value(Some(node));
    }

    method ParseString() returns (out: Exit<Ref>)
      requires AtPrefix(StringPrefix)
      modifies this, nodes
      ensures Answers(Prefixed(tokens, old(pos)), old(Pool()), old(errorCount), old(heap), out)
      decreases |tokens| - pos, 20
    {
      hide Prefixed, Flatten, Build, Root, RuleOf, Size;
      LeafHere(tokens, pos);
      LayLeaf(StringTree(tokens[pos - 1].text), nodeCount);
      HeapLeaf(StringTree(tokens[pos - 1].text), nodeCount, heap);
      LeafKinds(tokens[pos - 1]);
      var node :- NewNode(StringData(tokens[pos - 1].text), []);
      out := Value(Some(node));
    }

    /** Takes its name from the token just consumed, whatever that is. */
    method ParseIdentifier() returns (out: Exit<Ref>)
      requires Valid() && 0 < pos <= |tokens|
      modifies this`nodeCount, this`errorCount, nodes
      ensures Answers(Done(IdentTree(tokens[pos - 1].text), pos, 0), old(Pool()), old(errorCount), old(heap), out)
    {
      hide Flatten, Build, Root, Size;
      LayLeaf(IdentTree(tokens[pos - 1].text), nodeCount);
      HeapLeaf(IdentTree(tokens[pos - 1].text), nodeCount, heap);
      var node :- NewNode(IdentData(tokens[pos - 1].text), []);
      out := Value(Some(node));
    }

    method ParseName() returns (out: Exit<Ref>)
      requires AtPrefix(IdentifierPrefix)
      modifies this, nodes
      ensures Answers(Prefixed(tokens, old(pos)), old(Pool()), old(errorCount), old(heap), out)
      decreases |tokens| - pos, 20
    {
      hide Prefixed, Flatten, Build, Root, RuleOf, Size;
      LeafHere(tokens, pos);
      LeafKinds(tokens[pos - 1]);
      out := ParseIdentifier();
    }

    method ParseNil() returns (out: Exit<Ref>)
      requires AtPrefix(NilPrefix)
      modifies this, nodes
      ensures Answers(Prefixed(tokens, old(pos)), old(Pool()), old(errorCount), old(heap), out)
      decreases |tokens| - pos, 20
    {
      hide Prefixed, Flatten, Build, Root, RuleOf, Size;
      LeafHere(tokens, pos);
      LeafKinds(tokens[pos - 1]);
      LayLeaf(NilTree, nodeCount);
      HeapLeaf(NilTree, nodeCount, heap);
      var node :- NewNode(NilData, []);
      out := Value(Some(node));
    }

    method ParseBool() returns (out: Exit<Ref>)
      requires AtPrefix(BoolPrefix)
      modifies this, nodes
      ensures Answers(Prefixed(tokens, old(pos)), old(Pool()), old(errorCount), old(heap), out)
      decreases |tokens| - pos, 20
    {
      hide Prefixed, Flatten, Build, Root, RuleOf, Size;
      LeafHere(tokens, pos);
      LeafKinds(tokens[pos - 1]);
      LayLeaf(BoolTree(tokens[pos - 1].kind == TTrue), nodeCount);
      HeapLeaf(BoolTree(tokens[pos - 1].kind == TTrue), nodeCount, heap);
      var node :- NewNode(BoolData(tokens[pos - 1].kind == TTrue), []);
      out := Value(Some(node));
    }

    method ParseGrouping() returns (out: Exit<Ref>)
      requires AtPrefix(GroupingPrefix)
      modifies this, nodes
      ensures Answers(Prefixed(tokens, old(pos)), old(Pool()), old(errorCount), old(heap), out)
      decreases |tokens| - pos, 20
    {
      hide Prefixed, Erased, Expr, Flatten, Build, Root, RuleOf, Erase, Size;
      GroupHere(tokens, pos);
      var expr :- ParseExprPrec(PREC_LOWEST);
      var closed :- ExpectToken(TRParen);
      out := Value(expr);
    }

    method ParseCall(lhs: Ref, ghost l: Syn, ghost prefix: seq<Node>, ghost before: Heap) returns (out: Exit<Ref>)
      requires AtInfix(CallInfix, lhs, l, prefix, before)
      modifies this, nodes
      ensures Answers(Extended(tokens, old(pos), l), prefix, old(errorCount), before, out)
      decreases |tokens| - pos, 20
    {
      hide PushArgs;
      hide Precedence, Expect, Extended, Flatten, Build, FlattenAll, Roots, Root, RuleOf, Erase, EraseAll, Size, Sizes, List, Arguments;
      CallHere(tokens, pos, l);
      ghost var whole := Arguments(tokens, pos);
      if whole.Done? {
        PlaceCall(prefix, Erase(l), EraseAll(whole.value));
        HeapCall(Erase(l), EraseAll(whole.value), |prefix|, before);
      }
      ghost var left := prefix + Flatten(Erase(l), |prefix|);

      var node :- NewNode(CallData, [lhs]);
      var args :- ParseArguments();
      var closed :- ExpectToken(TRParen);
      SetNode(node, Node(CallData, [lhs] + args.0), left, FlattenAll(List(EraseAll(whole.value)), |left| + 1));
      heap := SetList(heap, node, args.1);
      out := Value(Some(node));
    }

    /** A call's arguments, if the next token is not the closing parenthesis. */
    method ParseArguments() returns (out: Exit<(seq<Ref>, Slots)>)
      requires Valid()
      modifies this, nodes
      ensures AnswersList(ErasedList(Arguments(tokens, old(pos))), old(Pool()), old(errorCount), old(heap), out)
      decreases |tokens| - pos, 15
    {
      hide FlattenAll, Roots, EraseAll, Sizes, List, ArgumentList, Arguments;
      ArgumentsRun(tokens, pos);
      EmptyForest(nodeCount);
      HeapNone(nodeCount, heap);
      if pos >= |tokens| { return Stop(OffTokens); }
      if tokens[pos].kind == TRParen { return Value(([], EMPTY)); }
      out := ParseArgumentList();
    }

    /** The loop over arguments. */
    method ParseArgumentList() returns (out: Exit<(seq<Ref>, Slots)>)
      requires Valid() && pos <= |tokens|
      modifies this, nodes
      ensures AnswersList(ErasedList(ArgumentList(tokens, old(pos))), old(Pool()), old(errorCount), old(heap), out)
      decreases |tokens| - pos, 14
    {
      hide PushArgs;
      hide Expr, Flatten, Build, FlattenAll, Roots, Root, Erase, EraseAll, Size, Sizes, List, ArgumentList, AppendSyns;
      hide ListAfter, ListSoFar;
      ghost var whole := ArgumentList(tokens, pos);
      ghost var head, before := Pool(), heap;
      ghost var done: Syns := NoSyns;
      ghost var trees: seq<Tree> := [];
      ghost var errors: nat := 0;
      var args: (seq<Ref>, Slots) := ([], EMPTY);
      var more := true;
      NothingListed(head, before);
      NothingDone(whole);
      while more
        invariant Valid() && old(pos) <= pos <= |tokens| && errorCount == old(errorCount) + errors
        invariant trees == List(EraseAll(done)) && ListSoFar(trees, args, head, before)
        invariant whole == if more then ListAfter(done, errors, ArgumentList(tokens, pos)) else Done(done, pos, errors)
        decreases |tokens| - pos, more
      {
        ghost var e := Expr(tokens, pos, PREC_COMMA);
        ArgumentStep(tokens, done, errors, pos);
        ArgumentBuilds(tokens, done, errors, pos, |head|, before);
        args :- AddExpr(PREC_COMMA, args, head, trees, before);
        AppendOne(done, e.value, NoSyns);
        trees := trees + [Erase(e.value)];
        done := AppendSyns(done, Syns(e.value, NoSyns));
        errors := errors + e.errors;
        more :- Match(TComma);
      }
      ListAnswers(ErasedList(whole), args, head, old(errorCount), before);
      out := Value(args);
    }

    /** The trees built so far follow `head` in the pool, and `list` holds the pointers to them. */
    ghost predicate ListSoFar(trees: seq<Tree>, list: (seq<Ref>, Slots), head: seq<Node>, before: Heap)
      reads this`nodeCount, this`heap, nodes
    {
      && Valid() && Pool() == head + FlattenAll(trees, |head|) && list.0 == Roots(trees, |head|)
      && Pushed(heap, list.1) == PushArgs(trees, |head|, before)
    }

    lemma {:induction false} NothingListed(head: seq<Node>, before: Heap)
      requires Valid() && Pool() == head && heap == before
      ensures ListSoFar([], ([], EMPTY), head, before) && List(EraseAll(NoSyns)) == []
    {
      hide PushArgs, FlattenAll, Roots;
      EmptyForest(|head|);
      HeapNone(|head|, before);
    }

    lemma ListAnswers(run: Run<seq<Tree>>, list: (seq<Ref>, Slots), head: seq<Node>, errors: nat, before: Heap)
      requires run.Done? && ListSoFar(run.value, list, head, before) && pos == run.pos && errorCount == errors + run.errors
      ensures AnswersList(run, head, errors, before, Value(list))
    {
      hide PushArgs, FlattenAll, Roots, Sizes;
    }

    /** Makes room in the list, parses one expression and stores its pointer. */
    method AddExpr(prec: nat, list: (seq<Ref>, Slots), ghost head: seq<Node>, ghost trees: seq<Tree>, ghost before: Heap)
      returns (out: Exit<(seq<Ref>, Slots)>)
      requires ListSoFar(trees, list, head, before)
      modifies this, nodes
      ensures var e := Erased(Expr(tokens, old(pos), prec));
              && Valid()
              && match out
                 case Stop(why) =>
                   if e.Halt? then why == e.why || why == PoolFull || why == ArenaFull
                   else || (why == PoolFull && |head| + Sizes(trees) + Size(e.value) > nodes.Length)
                        || (why == ArenaFull && |PushArgs(trees + [e.value], |head|, before).heap.mem| > room)
                 case Value(longer) =>
                   && e.Done? && pos == e.pos && errorCount == old(errorCount) + e.errors
                   && ListSoFar(trees + [e.value], longer, head, before)
      decreases |tokens| - pos, 12
    {
      hide Expr, Erase, Flatten, Build, FlattenAll, Root, Roots, Size, Sizes, PushArgs, Reserve, StoreLast, RefCells;
      ghost var e := Erased(Expr(tokens, pos, prec));
      if e.Done? {
        OneMoreTree(trees, e.value, |head|);
        HeapSnoc(trees, e.value, |head|, before);
      }
      var slots :- ReserveSlot(list.1, REF_BYTES);
      assert Pool() == old(Pool());
      var ref :- ParseExprPrec(prec);
      var p := StoreLast(heap, slots, RefCells(ref));
      heap := p.heap;
      out := Value((list.0 + [ref], p.slots));
    }

    // ----- Array literals -----

    method ParseArrayLit() returns (out: Exit<Ref>)
      requires AtPrefix(ArrayPrefix)
      modifies this, nodes
      ensures Answers(Prefixed(tokens, old(pos)), old(Pool()), old(errorCount), old(heap), out)
      decreases |tokens| - pos, 20
    {
      hide PushArgs;
      hide Precedence, Prefixed, Flatten, Build, FlattenAll, Roots, Root, RuleOf, Erase, EraseAll, Size, Sizes, List, Elements;
      hide ArrayNodes, LengthRun;
      ArrayHere(tokens, pos);
      ghost var run := Prefixed(tokens, pos);
      ghost var prefix, before := Pool(), Pool() + [Node(ArrayData, [None])];
      if run.Done? {
        PlaceArray(prefix, run.value.elems, run.value.length);
        HeapArray(run.value.elems, run.value.length, nodeCount, heap);
        ArrayJoin(before, List(run.value.elems), run.value.length, |before|);
      }

      var node :- NewNode(ArrayData, [None]);
      var elems :- ParseElements();
      var length :- ParseArrayLength(|elems.0|);
      SetNode(node, Node(ArrayData, elems.0 + [length]), prefix, ArrayNodes(List(run.value.elems), run.value.length, node + 1));
      heap := SetList(heap, node, elems.1);
      out := Value(Some(node));
    }

    /** A semicolon with a length, if there is one, and the closing bracket. */
    method ParseArrayLength(count: nat) returns (out: Exit<Ref>)
      requires Valid()
      modifies this, nodes
      ensures Answers(LengthRun(tokens, old(pos), count), old(Pool()), old(errorCount), old(heap), out)
      decreases |tokens| - pos, 15
    {
      hide Expr, Flatten, Build, Root, Erase, Size;
      NullTree(nodeCount);
      HeapNone(nodeCount, heap);
      var length: Ref := None;
      var repeated :- Match(TSemicolon);
      if repeated {
        if count != 1 { RaiseError(); }
        length :- ParseExprPrec(PREC_LOWEST);
      }
      ghost var built := Pool();
      var closed :- ExpectToken(TRSqBracket);
      assert Pool() == built;
      out := Value(length);
    }

    /** The loop over an array's elements; a comma may come before the closing bracket. */
    method ParseElements() returns (out: Exit<(seq<Ref>, Slots)>)
      requires Valid() && pos <= |tokens|
      modifies this, nodes
      ensures AnswersList(ErasedElems(Elements(tokens, old(pos))), old(Pool()), old(errorCount), old(heap), out)
      decreases |tokens| - pos, 15
    {
      hide PushArgs;
      hide Expr, Flatten, Build, FlattenAll, Roots, Root, Erase, EraseAll, Size, Sizes, List, Elements, AppendSyns;
      hide ErasedElems;
      hide ElemsAfter, ListSoFar;
      ghost var whole := Elements(tokens, pos);
      ghost var head, before := Pool(), heap;
      ghost var done: Syns := NoSyns;
      ghost var trees: seq<Tree> := [];
      ghost var errors: nat := 0;
      ghost var comma := false;
      var elems: (seq<Ref>, Slots) := ([], EMPTY);
      NothingListed(head, before);
      NothingDoneYet(Elements(tokens, pos));
      ElemsOf(whole);
      var more := true;
      while more
        invariant Valid() && old(pos) <= pos <= |tokens| && errorCount == old(errorCount) + errors
        invariant trees == List(EraseAll(done)) && ListSoFar(trees, elems, head, before)
        invariant whole == if more then ElemsAfter(done, errors, Elements(tokens, pos))
                           else Done(ElemList(done, comma), pos, errors)
        decreases |tokens| - pos, more
      {
        LastElements(tokens, done, errors, pos);
        if pos >= |tokens| { return Stop(OffTokens); }
        if tokens[pos].kind == TRSqBracket {
          comma := true;
          break;
        }
        ghost var e := Expr(tokens, pos, PREC_HIGHEST);
        ElementStep(tokens, done, errors, pos);
        ElementBuilds(tokens, done, errors, pos, |head|, before);
        elems :- AddExpr(PREC_HIGHEST, elems, head, trees, before);
        AppendOne(done, e.value, NoSyns);
        trees := trees + [Erase(e.value)];
        done := AppendSyns(done, Syns(e.value, NoSyns));
        errors := errors + e.errors;
        more :- Match(TComma);
      }
      ListAnswers(ErasedElems(whole), elems, head, old(errorCount), before);
      out := Value(elems);
    }

    lemma ElemsOf(r: Run<ElemList>)
      ensures ErasedElems(r) == if r.Halt? then Halt(r.why) else Done(List(EraseAll(r.value.items)), r.pos, r.errors)
    {
      hide EraseAll, List;
    }

    // ----- If expressions -----

    method SkipNewlineTokens()
      requires pos <= |tokens|
      modifies this`pos
      ensures pos == SkipNewlines(tokens, old(pos)) <= |tokens|
      ensures old(pos) <= pos
    {
      while pos < |tokens| && tokens[pos].kind == TNewline
        invariant old(pos) <= pos <= |tokens|
        invariant SkipNewlines(tokens, old(pos)) == SkipNewlines(tokens, pos)
      {
        pos := pos + 1;
      }
    }

    /** From just after `if`. */
    method ParseIfExpr() returns (out: Exit<Ref>)
      requires Valid()
      modifies this, nodes
      ensures Answers(Erased(IfExpr(tokens, old(pos))), old(Pool()), old(errorCount), old(heap), out)
      decreases |tokens| - pos, 25
    {
      hide IfExpr, Flatten, Build, Root, Size, ThenRun, ErasedElse, ElseArm, Expr, Erase;
      IfRun(tokens, pos);
      ghost var run := Erased(IfExpr(tokens, pos));
      ghost var prefix := Pool();
      if run.Done? {
        PlaceIf(prefix, run.value.test, run.value.thenArm, run.value.elseArm);
        HeapIf(run.value.test, run.value.thenArm, run.value.elseArm, nodeCount, heap);
      }

      var test :- ParseExprPrec(PREC_LOWEST);
      var body :- ParseThen();
      var els :- ParseElseArm();
      var node :- NewNode(IfData, [test, body, els]);
      out := Value(Some(node));
    }

    /** Newlines, the opening brace and the block. */
    method ParseThen() returns (out: Exit<Ref>)
      requires Valid() && pos <= |tokens|
      modifies this, nodes
      ensures Answers(ThenRun(tokens, old(pos)), old(Pool()), old(errorCount), old(heap), out)
      decreases |tokens| - pos, 35
    {
      hide Flatten, Build, Root, Size, SkipNewlines, Block, ErasedBlock;
      SkipNewlineTokens();
      var open :- ExpectToken(TLBrace);
      out := ParseBlock();
    }

    /** Looks ahead over newlines for `else`; without one the cursor goes back to where it was. */
    method TakeElse() returns (out: Exit<bool>)
      requires pos <= |tokens|
      modifies this`pos
      ensures old(pos) <= pos <= |tokens|
      ensures var next := SkipNewlines(tokens, old(pos));
              if next >= |tokens| then out == Stop(OffTokens)
              else if tokens[next].kind != TElse then out == Value(false) && pos == old(pos)
              else out == Value(true) && pos == SkipNewlines(tokens, next + 1)
    {
      hide SkipNewlines;
      var savedPos := pos;
      SkipNewlineTokens();
      out := Match(TElse);
      if out == Value(true) {
        SkipNewlineTokens();
      } else if out == Value(false) {
        pos := savedPos;
      }
    }

    method ParseElseArm() returns (out: Exit<Ref>)
      requires Valid() && pos <= |tokens|
      modifies this, nodes
      ensures Answers(ErasedElse(ElseArm(tokens, old(pos))), old(Pool()), old(errorCount), old(heap), out)
      decreases |tokens| - pos, 40
    {
      hide ErasedElse, ElseArm, Flatten, Build, Root, Size, SkipNewlines, ArmRun;
      ElseRun(tokens, pos);
      var found :- TakeElse();
      if found {
        out := ParseArm();
      } else {
        NullTree(nodeCount);
        HeapNone(nodeCount, heap);
        out := Value(None);
      }
    }

    /** Another if expression, or a block. */
    method ParseArm() returns (out: Exit<Ref>)
      requires Valid()
      modifies this, nodes
      ensures Answers(ArmRun(tokens, old(pos)), old(Pool()), old(errorCount), old(heap), out)
      decreases |tokens| - pos, 35
    {
      hide IfExpr, Flatten, Build, Root, Size, Block, Erase, EraseItems;
      if pos >= |tokens| { return Stop(OffTokens); }
      if tokens[pos].kind == TIf {
        pos := pos + 1;
        out := ParseIfExpr();
      } else {
        var _ := ExpectToken(TLBrace);
        out := ParseBlock();
      }
    }

    // ----- Blocks and statements -----

    /** From just after an opening brace, through the closing one. */
    method ParseBlock() returns (out: Exit<Ref>)
      requires Valid()
      modifies this, nodes
      ensures Answers(ErasedBlock(Block(tokens, old(pos))), old(Pool()), old(errorCount), old(heap), out)
      decreases |tokens| - pos, 30
    {
      hide PushStmts;
      hide Block, Statements, EraseItems, List, Flatten, Build, FlattenAll, Root, Roots, Size, Sizes;
      BlockRun(tokens, pos);
      ghost var items := Statements(tokens, pos, TRBrace);
      ghost var prefix := Pool();
      if items.Done? {
        PlaceBlock(prefix, EraseItems(items.value));
        HeapBlock(EraseItems(items.value), nodeCount, heap);
      }

      var node :- NewNode(BlockData, []);
      heap := SetList(heap, node, EMPTY);
      assert Pool() == prefix + [Node(BlockData, [])];
      var stmts :- ParseStatements(node, prefix, TRBrace);
      StopsAtEnd(tokens, old(pos), TRBrace);
      var _ := ExpectToken(TRBrace);
      out := Value(Some(node));
    }

    /** The loop over statements, up to `end`. */
    method ParseStatements(node: nat, ghost prefix: seq<Node>, end: TokenType) returns (out: Exit<seq<Ref>>)
      requires Valid() && node == |prefix| && Pool() == prefix + [Node(BlockData, [])]
      requires end == TRBrace || end == TEnd
      modifies this, nodes
      ensures HoldsStatements(ErasedItems(Statements(tokens, old(pos), end)), prefix, old(errorCount), old(heap), out)
      decreases |tokens| - pos, 25
    {
      hide Statements, Statement, EraseItems, EraseStmt, List, Flatten, Build, FlattenAll, Roots, Size, Sizes, AppendItems;
      hide ItemsAfter, IsSeparator, Root, PushStmts, BlockSoFar;
      EndsAreNotSeparators();
      ghost var whole, before := Statements(tokens, pos, end), heap;
      ghost var done: Items := NoItems;
      ghost var trees: seq<Tree> := [];
      ghost var errors: nat := 0;
      var stmts: (seq<Ref>, Slots) := ([], EMPTY);
      NoStatementsYet(node + 1, whole);
      NothingInBlock(prefix, before);
      while true
        invariant Valid() && old(pos) <= pos && errorCount == old(errorCount) + errors
        invariant trees == List(EraseItems(done)) && BlockSoFar(trees, stmts, prefix, before)
        invariant whole == ItemsAfter(done, errors, Statements(tokens, pos, end))
        decreases |tokens| - pos
      {
        EndStep(tokens, done, errors, pos, end);
        if pos >= |tokens| { return Stop(OffTokens); }
        if tokens[pos].kind == end { break; }
        if IsSeparator(tokens[pos].kind) {
          SeparatorStep(tokens, done, errors, pos, end);
          done := AppendItems(done, Sep(tokens[pos], NoItems));
          pos := pos + 1;
          continue;
        }
        ghost var stmt := Statement(tokens, pos);
        StatementStep(tokens, done, errors, pos, end);
        StatementBuilds(tokens, done, errors, pos, end, node, node + 1, before);
        if stmt.Done? { EndStep(tokens, AppendItems(done, Item(stmt.value, NoItems)), errors + stmt.errors, stmt.pos, end); }
        stmts :- AddStatement(node, stmts, prefix, trees, before);
        AppendItem(done, stmt.value, NoItems);
        trees := trees + [EraseStmt(stmt.value)];
        done := AppendItems(done, Item(stmt.value, NoItems));
        errors := errors + stmt.errors;

        if pos >= |tokens| { return Stop(OffTokens); }
        if IsSeparator(tokens[pos].kind) {
          SeparatorStep(tokens, done, errors, pos, end);
          done := AppendItems(done, Sep(tokens[pos], NoItems));
          pos := pos + 1;
          continue;
        }
        if tokens[pos].kind == end { break; }
        RaiseError();
        errors := errors + 1;
      }
      BlockAnswers(ErasedItems(whole), stmts, prefix, old(errorCount), before);
      out := Value(stmts.0);
    }

    /** The statements built so far follow the block's node, which holds `stmts`. */
    ghost predicate BlockSoFar(trees: seq<Tree>, stmts: (seq<Ref>, Slots), prefix: seq<Node>, before: Heap)
      reads this`nodeCount, this`heap, nodes
    {
      var base := |prefix| + 1;
      && Valid() && Pool() == prefix + [Node(BlockData, stmts.0)] + FlattenAll(trees, base) && stmts.0 == Roots(trees, base)
      && Pushed(heap, stmts.1) == PushStmts(trees, |prefix|, base, before)
    }

    lemma {:induction false} NothingInBlock(prefix: seq<Node>, before: Heap)
      requires Valid() && Pool() == prefix + [Node(BlockData, [])] && heap == before
      ensures BlockSoFar([], ([], EMPTY), prefix, before)
    {
      hide PushStmts;
      Layout.NoParts(|prefix| + 1);
      HeapNone(|prefix| + 1, before);
    }

    lemma BlockAnswers(run: Run<seq<Tree>>, stmts: (seq<Ref>, Slots), prefix: seq<Node>, errors: nat, before: Heap)
      requires run.Done? && BlockSoFar(run.value, stmts, prefix, before) && pos == run.pos && errorCount == errors + run.errors
      ensures HoldsStatements(run, prefix, errors, before, Value(stmts.0))
    {
      hide PushStmts, FlattenAll, Roots, Sizes;
    }

    /** The block's node, whose statements follow it. */
    ghost predicate HoldsStatements(run: Run<seq<Tree>>, prefix: seq<Node>, errors: nat, before: Heap, out: Exit<seq<Ref>>)
      reads this, nodes
    {
      && Valid()
      && match out
         case Stop(why) =>
           if run.Halt? then why == run.why || why == PoolFull || why == ArenaFull
           else || (why == PoolFull && |prefix| + 1 + Sizes(run.value) > nodes.Length)
                || (why == ArenaFull && |PushStmts(run.value, |prefix|, |prefix| + 1, before).heap.mem| > room)
         case Value(refs) =>
           && run.Done? && pos == run.pos && errorCount == errors + run.errors
           && Pool() == prefix + [Node(BlockData, refs)] + FlattenAll(run.value, |prefix| + 1)
           && refs == Roots(run.value, |prefix| + 1)
           && heap == PushStmts(run.value, |prefix|, |prefix| + 1, before).heap
    }

    /** Parses one statement and adds it to the block at `node`, whose array grows after that. */
    method AddStatement(node: nat, stmts: (seq<Ref>, Slots), ghost prefix: seq<Node>, ghost trees: seq<Tree>, ghost before: Heap)
      returns (out: Exit<(seq<Ref>, Slots)>)
      requires pos < |tokens| && node == |prefix| && BlockSoFar(trees, stmts, prefix, before)
      modifies this, nodes
      ensures var stmt := ErasedStmt(Statement(tokens, old(pos)));
              && Valid()
              && match out
                 case Stop(why) =>
                   if stmt.Halt? then why == stmt.why || why == PoolFull || why == ArenaFull
                   else || (why == PoolFull && |prefix| + 1 + Sizes(trees) + Size(stmt.value) > nodes.Length)
                        || (why == ArenaFull && |PushStmts(trees + [stmt.value], node, node + 1, before).heap.mem| > room)
                 case Value(longer) =>
                   && stmt.Done? && pos == stmt.pos && errorCount == old(errorCount) + stmt.errors
                   && BlockSoFar(trees + [stmt.value], longer, prefix, before)
      decreases |tokens| - pos, 24
    {
      hide Statement, EraseStmt, Flatten, Build, FlattenAll, Root, Roots, Size, Sizes, PushStmts, Reserve, StoreLast, RefCells;
      ghost var stmt := ErasedStmt(Statement(tokens, pos));
      if stmt.Done? {
        OneMoreTree(trees, stmt.value, node + 1);
        HeapSnocStmt(trees, stmt.value, node, node + 1, before);
      }
      var ref :- ParseStmt();
      ghost var pool := Pool();
      var slots :- ReserveSlot(stmts.1, REF_BYTES);
      assert Pool() == pool;
      var p := StoreLast(heap, slots, RefCells(ref));
      heap := SetList(p.heap, node, p.slots);
      assert Pool() == pool;
      out := Value((stmts.0 + [ref], p.slots));
      SetNode(node, Node(BlockData, out.value.0), prefix, FlattenAll(trees + [stmt.value], node + 1));
    }

    method ParseStmt() returns (out: Exit<Ref>)
      requires Valid() && pos < |tokens|
      modifies this, nodes
      ensures Answers(ErasedStmt(Statement(tokens, old(pos))), old(Pool()), old(errorCount), old(heap), out)
      decreases |tokens| - pos, 23
    {
      hide Statement, Expr, FuncDecl, ConstVarDecl, Erase, EraseStmt, Flatten, Build, Root, Size;
      StatementRun(tokens, pos);
      var kind := tokens[pos].kind;
      if kind == TReturn {
        pos := pos + 1;
        out := ParseReturn();
      } else if kind == TFunc || kind == TMain {
        pos := pos + 1;
        out := ParseFuncDecl();
      } else if kind == TVar || kind == TConst {
        pos := pos + 1;
        out := ParseConstVarDecl(kind);
      } else {
        out := ParseExprPrec(PREC_LOWEST);
      }
    }

    method ParseReturn() returns (out: Exit<Ref>)
      requires Valid() && pos <= |tokens|
      modifies this, nodes
      ensures var e := Erased(Expr(tokens, old(pos), PREC_LOWEST));
              Answers(if e.Done? then Done(ReturnTree(e.value), e.pos, e.errors) else e, old(Pool()), old(errorCount), old(heap), out)
      decreases |tokens| - pos, 20
    {
      hide Expr, Erase, Flatten, Build, Root, Size;
      ghost var e := Erased(Expr(tokens, pos, PREC_LOWEST));
      ghost var prefix := Pool();
      if e.Done? {
        PlaceReturn(prefix, e.value);
        HeapFirst(ReturnTree(e.value), e.value, nodeCount, heap);
      }
      var node :- NewNode(ReturnData, [None]);
      var expr :- ParseExprPrec(PREC_LOWEST);
      SetNode(node, Node(ReturnData, [expr]), prefix, Flatten(e.value, node + 1));
      out := Value(Some(node));
    }

    /** From just after the keyword. */
    method ParseConstVarDecl(kind: TokenType) returns (out: Exit<Ref>)
      requires Valid() && 0 < pos <= |tokens| && tokens[pos - 1].kind == kind
      modifies this, nodes
      ensures Answers(ErasedStmt(ConstVarDecl(tokens, old(pos) - 1)), old(Pool()), old(errorCount), old(heap), out)
      decreases |tokens| - pos, 20
    {
      hide InitRun, ErasedStmt, ConstVarDecl, Flatten, Build, Root, Size, NamedPlace;
      ghost var prefix, run := Pool(), ErasedStmt(ConstVarDecl(tokens, pos - 1));
      var data := DeclData(kind == TConst);
      DeclPlace(tokens, pos - 1, prefix);
      if pos < |tokens| && InitRun(tokens, pos + 1).Done? { DeclBuild(tokens, pos - 1, nodeCount, heap); }
      var node :- NewNode(data, [None, None]);
      if pos >= |tokens| { return Stop(OffTokens); }
      pos := pos + 1;
      ghost var name, init := tokens[pos - 1].text, InitRun(tokens, pos);
      NameNode(name, node + 1);
      NameHeap(name, node + 1, heap);
      assert Pool() == prefix + [Node(data, [None, None])];
      var ident :- ParseIdentifier();
      var value :- ParseInit();
      SetNamed(node, Node(data, [None, None]), data, ident, value, prefix, run.value, name, init.value);
      out := Value(Some(node));
    }

    /** Fills in the node of a declaration or a function, which is the tree `t`, once its parts are built. */
    method SetNamed(i: nat, ghost empty: Node, data: Data, ident: Ref, last: Ref, ghost prefix: seq<Node>, ghost t: Tree,
                    ghost name: string, ghost rest: Tree)
      requires Valid() && i == |prefix| && ident == Some(i + 1) && last == Root(rest, i + 2)
      requires Pool() == prefix + [empty] + [Node(IdentData(name), [])] + Flatten(rest, i + 2)
      requires NamedPlace(prefix, t, data, name, rest)
      modifies nodes
      ensures Valid() && Pool() == prefix + Flatten(t, i) && Root(t, i) == Some(i)
    {
      hide Flatten, Root;
      NamedJoin(prefix, empty, name, rest);
      SetNode(i, Node(data, [ident, last]), prefix, [Node(IdentData(name), [])] + Flatten(rest, i + 2));
    }

    method ParseInit() returns (out: Exit<Ref>)
      requires Valid()
      modifies this, nodes
      ensures Answers(InitRun(tokens, old(pos)), old(Pool()), old(errorCount), old(heap), out)
      decreases |tokens| - pos, 18
    {
      hide Expr, Erase, Flatten, Build, Root, Size;
      NullTree(nodeCount);
      HeapNone(nodeCount, heap);
      out := Value(None);
      var given :- Match(TEquals);
      if given { out := ParseExprPrec(PREC_LOWEST); }
    }

    /** From just after `func` or `main`. */
    method ParseFuncDecl() returns (out: Exit<Ref>)
      requires Valid() && 0 < pos <= |tokens|
      modifies this, nodes
      ensures Answers(ErasedStmt(FuncDecl(tokens, old(pos) - 1)), old(Pool()), old(errorCount), old(heap), out)
      decreases |tokens| - pos, 60
    {
      hide BodyRun, ErasedStmt, FuncDecl, Flatten, Build, Root, Size, NamedPlace, Describe;
      ghost var prefix, run := Pool(), ErasedStmt(FuncDecl(tokens, pos - 1));
      FuncPlace(tokens, pos - 1, prefix);
      ghost var at := if pos < |tokens| && tokens[pos].kind == TIdent then pos + 1 else pos;
      if pos < |tokens| && BodyRun(tokens, at).Done? { FuncBuild(tokens, pos - 1, nodeCount, heap); }
      var head :- ParseFuncName();
      var node, ident := head.0, head.1;
      ghost var name, body := tokens[pos - 1].text, BodyRun(tokens, pos);
      NameNode(name, node + 1);
      var rest :- ParseFuncBody(node);
      SetNamed(node, Node(FuncData([]), [None, None]), FuncData(rest.0), ident, rest.1, prefix, run.value, name, body.value.1);
      out := Value(Some(node));
    }

    /** The node and the identifier after it; without an identifier the keyword itself is the name. */
    method ParseFuncName() returns (out: Exit<(nat, Ref)>)
      requires Valid() && 0 < pos <= |tokens|
      modifies this, nodes
      ensures Valid()
      ensures match out
              case Stop(why) => if why == PoolFull then |old(Pool())| + 2 > nodes.Length else why == OffTokens && old(pos) == |tokens|
              case Value((node, ident)) =>
                && node == |old(Pool())| && ident == Some(node + 1) && heap == old(heap) && errorCount == old(errorCount)
                && old(pos) < |tokens| && pos == (if tokens[old(pos)].kind == TIdent then old(pos) + 1 else old(pos))
                && Pool() == old(Pool()) + [Node(FuncData([]), [None, None])] + [Node(IdentData(tokens[pos - 1].text), [])]
    {
      hide Flatten, Build, Root, Size;
      var node :- NewNode(FuncData([]), [None, None]);
      ghost var was := Pool();
      var named :- Match(TIdent);
      assert Pool() == was;
      NameNode(tokens[pos - 1].text, node + 1);
      NameHeap(tokens[pos - 1].text, node + 1, heap);
      var ident :- ParseIdentifier();
      out := Value((node, ident));
    }

    /** The parameters, the record for them, the opening brace and the block. */
    method ParseFuncBody(node: nat) returns (out: Exit<(seq<Param>, Ref)>)
      requires Valid() && pos <= |tokens|
      modifies this, nodes
      ensures var run := BodyRun(tokens, old(pos));
              && Valid()
              && match out
                 case Stop(why) =>
                   if run.Halt? then why == run.why || why == PoolFull || why == ArenaFull
                   else || (why == PoolFull && |old(Pool())| + Size(run.value.1) > nodes.Length)
                        || (why == ArenaFull && |Build(run.value.1, old(nodeCount), Describe(run.value.0, node, old(heap))).mem| > room)
                 case Value(rest) =>
                   && run.Done? && pos == run.pos && errorCount == old(errorCount) + run.errors && rest.0 == run.value.0
                   && Pool() == old(Pool()) + Flatten(run.value.1, old(nodeCount))
                   && rest.1 == Root(run.value.1, old(nodeCount))
                   && heap == Build(run.value.1, old(nodeCount), Describe(run.value.0, node, old(heap)))
      decreases |tokens| - pos, 55
    {
      hide Flatten, Build, Root, Size, Block, Parameters, ErasedBlock, PushParams, AddRecord;
      var params :- ParseParams();
      assert Pool() == old(Pool());
      var described := AddRecord(heap, node, params.1);
      if |described.mem| > room { return Stop(ArenaFull); }
      heap := described;
      var open :- ExpectToken(TLBrace);
      assert Pool() == old(Pool());
      var block :- ParseBlock();
      out := Value((params.0, block));
    }

    /** Parameters in parentheses, if there are any parentheses. */
    method ParseParams() returns (out: Exit<(seq<Param>, Slots)>)
      requires Valid()
      modifies this`pos, this`errorCount, this`heap
      ensures Valid()
      ensures match ParamsOf(Parameters(tokens, old(pos)))
              case Halt(why) => out == Stop(why) || out == Stop(ArenaFull)
              case Done(params, end, errors) =>
                if out.Stop? then out.why == ArenaFull && |PushParams(params, old(heap)).heap.mem| > room
                else
                  && out.value.0 == params && pos == end && errorCount == old(errorCount) + errors
                  && Pushed(heap, out.value.1) == PushParams(params, old(heap))
    {
      hide ParameterList, Parameters, PushParams;
      ParametersRun(tokens, pos);
      NoParamsPushed(heap);
      if pos >= |tokens| { return Stop(OffTokens); }
      if tokens[pos].kind != TLParen { return Value(([], EMPTY)); }
      pos := pos + 1;
      var params :- ParseParamList();
      var _ := ExpectToken(TRParen);
      out := Value(params);
    }

    /** The do-while loop over parameters, from just after the parenthesis. */
    method ParseParamList() returns (out: Exit<(seq<Param>, Slots)>)
      requires Valid()
      modifies this`pos, this`errorCount, this`heap
      ensures Valid()
      ensures match ParamsAfter([], ParameterList(tokens, old(pos)))
              case Halt(why) => out == Stop(why) || out == Stop(ArenaFull)
              case Done(params, end, _) =>
                if out.Stop? then out.why == ArenaFull && |PushParams(params, old(heap)).heap.mem| > room
                else
                  && out.value.0 == params && pos == end < |tokens| && errorCount == old(errorCount)
                  && Pushed(heap, out.value.1) == PushParams(params, old(heap))
    {
      hide ParameterList, ParamRun, PushParams;
      NoParamsPushed(heap);
      NoParameters();
      ghost var whole, before := ParamsAfter([], ParameterList(tokens, pos)), heap;
      var params: (seq<Param>, Slots) := ([], EMPTY);
      var more := true;
      while more
        invariant Valid() && errorCount == old(errorCount) && old(pos) <= pos
        invariant whole == if more then ParamsAfter(params.0, ParameterList(tokens, pos)) else Done(params.0, pos, 0)
        invariant Pushed(heap, params.1) == PushParams(params.0, before)
        decreases |tokens| - pos, more
      {
        ParameterStep(tokens, params.0, pos);
        ParameterBuilds(tokens, params.0, pos, before);
        params :- AddParam(params, before);
        more :- Match(TComma);
      }
      out := Value(params);
    }

    /** Makes room in the list, parses one parameter and stores it. */
    method AddParam(params: (seq<Param>, Slots), ghost before: Heap) returns (out: Exit<(seq<Param>, Slots)>)
      requires Valid() && Pushed(heap, params.1) == PushParams(params.0, before)
      modifies this`pos, this`errorCount, this`heap
      ensures Valid()
      ensures match ParamRun(tokens, old(pos))
              case Halt(why) => out == Stop(why) || out == Stop(ArenaFull)
              case Done(param, end, _) =>
                if out.Stop? then out.why == ArenaFull && |PushParams(params.0 + [param], before).heap.mem| > room
                else
                  && out.value.0 == params.0 + [param] && old(pos) < pos == end && errorCount == old(errorCount)
                  && Pushed(heap, out.value.1) == PushParams(params.0 + [param], before)
    {
      hide PushParams, Reserve, StoreLast, ParamCells, ParamRun;
      ghost var run := ParamRun(tokens, pos);
      if run.Done? { HeapSnocParam(params.0, run.value, before); }
      var slots :- ReserveSlot(params.1, PARAM);
      var param :- ParseParam();
      var p := StoreLast(heap, slots, ParamCells(param));
      heap := p.heap;
      out := Value((params.0 + [param], p.slots));
    }

    method ParseParam() returns (out: Exit<Param>)
      modifies this`pos, this`errorCount
      ensures match ParamRun(tokens, old(pos))
              case Halt(why) => out == Stop(why)
              case Done(param, end, _) => out == Value(param) && old(pos) < pos == end && errorCount == old(errorCount)
    {
      if pos >= |tokens| { return Stop(OffTokens); }
      var name := tokens[pos].text;
      pos := pos + 1;
      var typed :- Match(TColon);
      if !typed { return Value(Param(name, None)); }
      var found :- ExpectToken(TIdent);
      if !found { return Stop(NoParamType); }
      out := Value(Param(name, Some(tokens[pos - 1].text)));
    }

    /**
     The whole program: its block's node comes first. The pool as it was written is one tree. What is read
     through it from memory is that pool, and one tree, exactly when the program's tree is intact. A program
     without errors cannot exhaust a pool that has room for as many nodes as there are tokens.
     */
    method ParseProgram() returns (out: Exit<Ref>)
      requires Valid() && pos == 0 && nodeCount == 0
      modifies this, nodes
      ensures Answers(ErasedBlock(Program(tokens)), [], old(errorCount), old(heap), out)
      ensures out.Value? ==> out.value == Some(0) && ReadBack(ErasedBlock(Program(tokens)).value)
      ensures Converse.AllSpelled(tokens) && Converse.Clean(Program(tokens)) && |tokens| <= nodes.Length ==>
                |Build(ErasedBlock(Program(tokens)).value, 0, old(heap)).mem| <= room ==> out.Value?
    {
      hide Statements, EraseItems, List, Flatten, Build, FlattenAll, Root, Roots, Size, Sizes, Converse.AllSpelled, ReadBack, PushStmts;
      ghost var items := Statements(tokens, 0, TEnd);
      if items.Done? {
        PlaceBlock([], EraseItems(items.value));
        HeapBlock(EraseItems(items.value), 0, heap);
        if Converse.AllSpelled(tokens) && items.errors == 0 { ProgramBudget(tokens); }
      }
      assert Pool() == [];
      var node :- NewNode(BlockData, []);
      heap := SetList(heap, node, EMPTY);
      assert Pool() == [] + [Node(BlockData, [])];
      var stmts :- ParseStatements(node, [], TEnd);
      ghost var t := BlockTree(EraseItems(items.value));
      assert Pool() == Flatten(t, 0);
      ProgramReadsBack(t, old(heap));
      out := Value(Some(node));
    }

    /** What the finished pool and the lists in memory have to do with the tree `t`. */
    ghost predicate ReadBack(t: Tree)
      reads this, nodes
    {
      && Valid() && OneTree(Pool(), t)
      && PoolRead(Pool(), heap) == Held(t, 0)
      && (PoolRead(Pool(), heap) == Pool() <==> Intact(t))
      && (OneTree(PoolRead(Pool(), heap), t) <==> Intact(t))
    }

    lemma {:induction false} ProgramReadsBack(t: Tree, before: Heap)
      requires Valid() && t.BlockTree? && Pool() == Flatten(t, 0) && heap == Build(t, 0, before)
      ensures ReadBack(t)
    {
      hide Flatten, Build, OneTree, PoolRead, HeldTrees.Held, Intact;
      WholePool(t);
      ProgramInMemory(t, before);
    }
  }
}
