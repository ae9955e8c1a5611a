/** Printing: parentheses go exactly where the rule table and the right-hand precedences ask for them. */
module Brackets {
  import opened Tokens
  import opened Syntax
  import opened Grammar

  /** The precedence of the operator at the top; the highest number when there is none. */
  ghost function Top(s: Syn): nat {
    match s
    case Infix(_, op, _) => Precedence(op)
    case Ternary(_, _, _) => PREC_TERNARY
    case Call(_, _) => PREC_CALL
    case Index(_, _) => PREC_CALL
    case Dot(_, _) => PREC_CALL
    case _ => PREC_COUNT
  }

  /** The precedence at which the last part is parsed; the highest number when a token closes it. */
  ghost function Right(s: Syn): nat {
    match s
    case Unary(_, _) => PREC_UNARY
    case Infix(_, op, _) => RightPrecedence(op)
    case Ternary(_, _, _) => PREC_TERNARY
    case _ => PREC_COUNT
  }

  ghost predicate NeedsGroup(s: Syn, prec: nat, op: nat) {
    Top(s) <= prec || Right(s) < op
  }

  /** `s` as an operand parsed at `prec` before an operator of precedence `op`. */
  ghost function Bracket(s: Syn, prec: nat, op: nat): Syn
    decreases s, 1
  {
    if NeedsGroup(s, prec, op) then Group(Inside(s, PREC_LOWEST)) else Inside(s, prec)
  }

  /** The same with the parts of `s` bracketed but no parentheses around it. */
  ghost function Inside(s: Syn, prec: nat): Syn
    decreases s, 0
  {
    match s
    case Missing => s
    case Leaf(_) => s
    case Unary(op, e) => Unary(op, Bracket(e, PREC_UNARY, PREC_NONE))
    case Group(e) => Group(Bracket(e, PREC_LOWEST, PREC_NONE))
    case Array(elems, comma, length) =>
      Array(BracketList(elems, PREC_HIGHEST, comma), comma,
            if length.Missing? then Missing else Bracket(length, PREC_LOWEST, PREC_NONE))
    case Infix(l, op, r) => Infix(Bracket(l, prec, Precedence(op)), op, Bracket(r, RightPrecedence(op), PREC_NONE))
    case Ternary(c, y, n) =>
      Ternary(Bracket(c, prec, PREC_TERNARY), Bracket(y, PREC_LOWEST, PREC_NONE), Bracket(n, PREC_TERNARY, PREC_NONE))
    case Call(f, args) => Call(Bracket(f, prec, PREC_CALL), BracketList(args, PREC_COMMA, false))
    case Index(b, i) => Index(Bracket(b, prec, PREC_CALL), Bracket(i, PREC_LOWEST, PREC_NONE))
    case Dot(l, member) => Dot(Bracket(l, prec, PREC_CALL), member)
    case If(c, newlines, body, els) =>
      If(Bracket(c, PREC_LOWEST, PREC_NONE), newlines, BracketItems(body), BracketElse(els))
  }

  ghost function BracketList(ss: Syns, prec: nat, comma: bool): Syns
    decreases ss, 0
  {
    match ss
    case NoSyns => NoSyns
    case Syns(head, tail) =>
      Syns(Bracket(head, prec, if tail.Syns? || comma then PREC_COMMA else PREC_NONE), BracketList(tail, prec, comma))
  }

  ghost function BracketElse(e: Else): Else
    decreases e, 0
  {
    match e
    case NoElse => NoElse
    case ElseIf(before, after, nested) => ElseIf(before, after, Inside(nested, PREC_LOWEST))
    case ElseBlock(before, after, items) => ElseBlock(before, after, BracketItems(items))
  }

  ghost function BracketStmt(s: Stmt): Stmt
    decreases s, 0
  {
    match s
    case Expression(e) => Expression(Bracket(e, PREC_LOWEST, PREC_NONE))
    case Return(e) => Return(Bracket(e, PREC_LOWEST, PREC_NONE))
    case Decl(isConst, declared, init) =>
      Decl(isConst, declared, if init.Missing? then Missing else Bracket(init, PREC_LOWEST, PREC_NONE))
    case Func(keyword, named, params, block) => Func(keyword, named, params, BracketItems(block))
  }

  ghost function BracketItems(items: Items): Items
    decreases items, 0
  {
    match items
    case NoItems => NoItems
    case Sep(mark, rest) => Sep(mark, BracketItems(rest))
    case Item(stmt, rest) => Item(BracketStmt(stmt), BracketItems(rest))
  }

  /** In a well-bound derivation the last operator alone decides the right edge. */
  lemma {:induction false} EdgeIsRight(s: Syn, prec: nat)
    requires Shaped(s) && Bound(s, prec) && prec <= PREC_HIGHEST
    ensures Edge(s) == Right(s) && prec < Top(s)
    decreases s
  {
    hide ShapedAll, ShapedItems, ShapedElse, BoundList, BoundItems, BoundElse;
    match s
    case Unary(_, e) => EdgeIsRight(e, PREC_UNARY);
    case Infix(_, op, r) => EdgeIsRight(r, RightPrecedence(op));
    case Ternary(_, _, n) => EdgeIsRight(n, PREC_TERNARY);
    case _ =>
  }

  /** An operand bracketed for its place: right shape, same tree, and bound as the place demands. */
  ghost predicate Placed(s: Syn, b: Syn, prec: nat, op: nat) {
    Shaped(b) && Bound(b, prec) && op <= Edge(b) && Erase(b) == Erase(s)
  }

  lemma {:induction false} BracketPlaces(s: Syn, prec: nat, op: nat)
    requires Shaped(s) && prec <= PREC_HIGHEST && op <= PREC_COUNT
    ensures Placed(s, Bracket(s, prec, op), prec, op)
    decreases s, 2
  {
    hide Shaped, Inside, Right, Top;
    if NeedsGroup(s, prec, op) {
      TopIsPositive(s);
      InsidePlaces(s, PREC_LOWEST);
      GroupPlaces(s, Inside(s, PREC_LOWEST), prec, op);
    } else {
      InsidePlaces(s, prec);
    }
  }

  lemma {:induction false} TopIsPositive(s: Syn)
    requires Shaped(s)
    ensures PREC_LOWEST < Top(s)
  {
    hide ShapedAll, ShapedItems, ShapedElse;
  }

  lemma GroupPlaces(s: Syn, b: Syn, prec: nat, op: nat)
    requires Placed(s, b, PREC_LOWEST, PREC_NONE) && op <= PREC_COUNT
    ensures Placed(s, Group(b), prec, op)
  {
  }

  /** Without parentheses around it, provided its own operator is in reach. */
  lemma {:induction false} InsidePlaces(s: Syn, prec: nat)
    requires Shaped(s) && prec <= PREC_HIGHEST && prec < Top(s)
    ensures Placed(s, Inside(s, prec), prec, Right(s)) && Placed(s, Inside(s, prec), prec, PREC_NONE)
    decreases s, 1
  {
    hide Shaped, Bound, Inside, Edge, Right, Top, Erase;
    InsideFits(s, prec);
    EdgeIsRight(Inside(s, prec), prec);
    RightOfInside(s, prec);
  }

  lemma {:induction false} RightOfInside(s: Syn, prec: nat)
    ensures Right(Inside(s, prec)) == Right(s) && Top(Inside(s, prec)) == Top(s)
  {
    hide Bracket, BracketList, BracketItems, BracketElse, RuleOf;
  }

  ghost predicate Reshaped(s: Syn, b: Syn, prec: nat) {
    Shaped(b) && Bound(b, prec) && Erase(b) == Erase(s)
  }

  lemma {:induction false} InsideFits(s: Syn, prec: nat)
    requires Shaped(s) && prec <= PREC_HIGHEST && prec < Top(s)
    ensures Reshaped(s, Inside(s, prec), prec)
    decreases s, 0
  {
    hide Bound, Edge, Erase, Placed, Reshaped, RuleOf, ShapedAll, ShapedItems, ShapedElse, ShapedLeaf;
    hide Bracket, BracketList, BracketItems, BracketElse;
    match s
    case Leaf(_) => ReshapeLeaf(s, prec);
    case Unary(op, e) =>
      BracketPlaces(e, PREC_UNARY, PREC_NONE);
      ReshapeUnary(s, Bracket(e, PREC_UNARY, PREC_NONE), prec);
    case Group(e) =>
      BracketPlaces(e, PREC_LOWEST, PREC_NONE);
      ReshapeGroup(s, Bracket(e, PREC_LOWEST, PREC_NONE), prec);
    case Array(elems, comma, length) =>
      BracketListPlaces(elems, PREC_HIGHEST, comma);
      if !length.Missing? { BracketPlaces(length, PREC_LOWEST, PREC_NONE); }
      ReshapeArray(s, BracketList(elems, PREC_HIGHEST, comma),
                   if length.Missing? then Missing else Bracket(length, PREC_LOWEST, PREC_NONE), prec);
    case Infix(l, op, r) =>
      PrecedenceBound(op);
      BracketPlaces(l, prec, Precedence(op));
      BracketPlaces(r, RightPrecedence(op), PREC_NONE);
      ReshapeInfix(s, Bracket(l, prec, Precedence(op)), Bracket(r, RightPrecedence(op), PREC_NONE), prec);
    case Ternary(c, y, n) =>
      BracketPlaces(c, prec, PREC_TERNARY);
      BracketPlaces(y, PREC_LOWEST, PREC_NONE);
      BracketPlaces(n, PREC_TERNARY, PREC_NONE);
      ReshapeTernary(s, Bracket(c, prec, PREC_TERNARY), Bracket(y, PREC_LOWEST, PREC_NONE),
                     Bracket(n, PREC_TERNARY, PREC_NONE), prec);
    case Call(f, args) =>
      BracketPlaces(f, prec, PREC_CALL);
      BracketListPlaces(args, PREC_COMMA, false);
      ReshapeCall(s, Bracket(f, prec, PREC_CALL), BracketList(args, PREC_COMMA, false), prec);
    case Index(b, i) =>
      BracketPlaces(b, prec, PREC_CALL);
      BracketPlaces(i, PREC_LOWEST, PREC_NONE);
      ReshapeIndex(s, Bracket(b, prec, PREC_CALL), Bracket(i, PREC_LOWEST, PREC_NONE), prec);
    case Dot(l, _) =>
      BracketPlaces(l, prec, PREC_CALL);
      ReshapeDot(s, Bracket(l, prec, PREC_CALL), prec);
    case If(c, _, body, els) =>
      BracketPlaces(c, PREC_LOWEST, PREC_NONE);
      BracketItemsFit(body);
      BracketElseFits(els);
      ReshapeIf(s, Bracket(c, PREC_LOWEST, PREC_NONE), BracketItems(body), BracketElse(els), prec);
  }

  lemma PrecedenceBound(op: TokenType)
    ensures Precedence(op) <= PREC_CALL && RightPrecedence(op) <= PREC_FACTOR
  {
  }

  lemma {:induction false} ReshapeLeaf(s: Syn, prec: nat)
    requires s.Leaf? && Shaped(s)
    ensures Reshaped(s, s, prec)
  {
  }

  lemma {:induction false} ReshapeUnary(s: Syn, e: Syn, prec: nat)
    requires s.Unary? && Shaped(s) && Placed(s.operand, e, PREC_UNARY, PREC_NONE)
    ensures Reshaped(s, Unary(s.op, e), prec)
  {
    hide Edge;
  }

  lemma {:induction false} ReshapeGroup(s: Syn, e: Syn, prec: nat)
    requires s.Group? && Shaped(s) && Placed(s.inner, e, PREC_LOWEST, PREC_NONE)
    ensures Reshaped(s, Group(e), prec)
  {
    hide Edge;
  }

  lemma {:induction false} ReshapeArray(s: Syn, elems: Syns, length: Syn, prec: nat)
    requires s.Array? && Shaped(s) && PlacedList(s.elems, elems, PREC_HIGHEST, s.comma)
    requires if s.length.Missing? then length.Missing? else Placed(s.length, length, PREC_LOWEST, PREC_NONE)
    ensures Reshaped(s, Array(elems, s.comma, length), prec)
  {
    hide Edge, ShapedAll, BoundList, EraseAll;
    assert Bound(Missing, PREC_LOWEST);
  }

  lemma {:induction false} ReshapeInfix(s: Syn, l: Syn, r: Syn, prec: nat)
    requires s.Infix? && Shaped(s) && prec < Precedence(s.infix)
    requires Placed(s.lhs, l, prec, Precedence(s.infix)) && Placed(s.rhs, r, RightPrecedence(s.infix), PREC_NONE)
    ensures Reshaped(s, Infix(l, s.infix, r), prec)
  {
    hide Edge, RuleOf, Precedence, RightPrecedence, InfixTree, IsInfix;
  }

  lemma {:induction false} ReshapeTernary(s: Syn, c: Syn, y: Syn, n: Syn, prec: nat)
    requires s.Ternary? && Shaped(s) && prec < PREC_TERNARY && Placed(s.cond, c, prec, PREC_TERNARY)
    requires Placed(s.yes, y, PREC_LOWEST, PREC_NONE) && Placed(s.no, n, PREC_TERNARY, PREC_NONE)
    ensures Reshaped(s, Ternary(c, y, n), prec)
  {
    hide Edge;
  }

  lemma {:induction false} ReshapeCall(s: Syn, f: Syn, args: Syns, prec: nat)
    requires s.Call? && Shaped(s) && prec < PREC_CALL && Placed(s.callee, f, prec, PREC_CALL)
    requires PlacedList(s.args, args, PREC_COMMA, false)
    ensures Reshaped(s, Call(f, args), prec)
  {
    hide Edge;
  }

  lemma {:induction false} ReshapeIndex(s: Syn, b: Syn, i: Syn, prec: nat)
    requires s.Index? && Shaped(s) && prec < PREC_CALL && Placed(s.base, b, prec, PREC_CALL)
    requires Placed(s.index, i, PREC_LOWEST, PREC_NONE)
    ensures Reshaped(s, Index(b, i), prec)
  {
    hide Edge;
  }

  lemma {:induction false} ReshapeDot(s: Syn, l: Syn, prec: nat)
    requires s.Dot? && Shaped(s) && prec < PREC_CALL && Placed(s.owner, l, prec, PREC_CALL)
    ensures Reshaped(s, Dot(l, s.member), prec)
  {
    hide Edge;
  }

  lemma {:induction false} ReshapeIf(s: Syn, c: Syn, body: Items, els: Else, prec: nat)
    requires s.If? && Shaped(s) && Placed(s.test, c, PREC_LOWEST, PREC_NONE)
    requires ShapedItems(body) && BoundItems(body) && EraseItems(body) == EraseItems(s.body)
    requires ShapedElse(els) && BoundElse(els) && EraseElse(els) == EraseElse(s.els)
    ensures Reshaped(s, If(c, s.newlines, body, els), prec)
  {
    hide Edge, ShapedItems, BoundItems, EraseItems, ShapedElse, BoundElse, EraseElse;
  }

  /** A list bracketed for its place, with the same commas. */
  ghost predicate PlacedList(ss: Syns, bs: Syns, prec: nat, comma: bool) {
    && ShapedAll(bs) && BoundList(bs, prec, comma) && EraseAll(bs) == EraseAll(ss)
    && bs.Syns? == ss.Syns? && (ss.Syns? ==> bs.tail.Syns? == ss.tail.Syns?)
  }

  lemma {:induction false} BracketListPlaces(ss: Syns, prec: nat, comma: bool)
    requires ShapedAll(ss) && prec <= PREC_HIGHEST
    ensures PlacedList(ss, BracketList(ss, prec, comma), prec, comma)
    decreases ss, 0
  {
    hide Bound, Edge, Erase, Shaped, Bracket;
    if ss.Syns? {
      BracketPlaces(ss.head, prec, if ss.tail.Syns? || comma then PREC_COMMA else PREC_NONE);
      BracketListPlaces(ss.tail, prec, comma);
    }
  }

  lemma {:induction false} BracketElseFits(e: Else)
    requires ShapedElse(e)
    ensures ShapedElse(BracketElse(e)) && BoundElse(BracketElse(e)) && EraseElse(BracketElse(e)) == EraseElse(e)
    decreases e, 0
  {
    hide Bound, Edge, Erase, Shaped, Bracket, Newlines, BracketItems, ShapedItems, BoundItems, EraseItems;
    match e
    case NoElse =>
    case ElseIf(_, _, nested) => InsideFits(nested, PREC_LOWEST);
    case ElseBlock(_, _, items) => BracketItemsFit(items);
  }

  lemma {:induction false} BracketStmtFits(s: Stmt)
    requires ShapedStmt(s)
    ensures var b := BracketStmt(s);
            ShapedStmt(b) && BoundStmt(b) && EraseStmt(b) == EraseStmt(s)
    decreases s, 0
  {
    hide Bound, Edge, Erase, Shaped, Bracket, BracketItems, ShapedItems, BoundItems, EraseItems;
    match s
    case Expression(e) => BracketPlaces(e, PREC_LOWEST, PREC_NONE);
    case Return(e) => BracketPlaces(e, PREC_LOWEST, PREC_NONE);
    case Decl(_, _, init) =>
      if init.Missing? { BoundMissing(); } else { BracketPlaces(init, PREC_LOWEST, PREC_NONE); }
    case Func(_, _, _, block) => BracketItemsFit(block);
  }

  lemma BoundMissing()
    ensures Bound(Missing, PREC_LOWEST)
  {
  }

  /** Bracketing a program changes neither its tree nor its shape and leaves it well bound. */
  lemma {:induction false} BracketItemsFit(items: Items)
    requires ShapedItems(items)
    ensures var b := BracketItems(items);
            ShapedItems(b) && BoundItems(b) && EraseItems(b) == EraseItems(items) && b.Item? == items.Item?
    decreases items, 0
  {
    hide ShapedStmt, BoundStmt, EraseStmt, BracketStmt;
    match items
    case NoItems =>
    case Sep(_, rest) => BracketItemsFit(rest);
    case Item(stmt, rest) =>
      BracketStmtFits(stmt);
      BracketItemsFit(rest);
  }

  // ----- What is bound already -----

  /** Bracketing changes exactly the derivations that are not yet bound for their place. */
  lemma {:induction false} BracketChangesTheUnbound(s: Syn, prec: nat, op: nat)
    requires Shaped(s) && prec <= PREC_HIGHEST && op <= PREC_COUNT
    ensures Bracket(s, prec, op) == s <==> Bound(s, prec) && op <= Edge(s)
  {
    hide Shaped, Bound, Edge, Bracket, Erase;
    BracketPlaces(s, prec, op);
    if Bound(s, prec) && op <= Edge(s) { BracketKeeps(s, prec, op); }
  }

  lemma {:induction false} BracketKeeps(s: Syn, prec: nat, op: nat)
    requires Shaped(s) && Bound(s, prec) && op <= Edge(s) && prec <= PREC_HIGHEST
    ensures Bracket(s, prec, op) == s && Inside(s, prec) == s
    decreases s
  {
    hide Bound, Edge, Erase, Shaped, Right, Top, RuleOf, Inside;
    EdgeIsRight(s, prec);
    InsideKeeps(s, prec);
  }

  lemma {:induction false} InsideKeeps(s: Syn, prec: nat)
    requires Shaped(s) && Bound(s, prec) && prec <= PREC_HIGHEST
    ensures Inside(s, prec) == s
    decreases s, 0
  {
    hide Edge, Erase, RuleOf, Bracket, BracketList, BracketItems, BracketElse, ShapedLeaf, BoundItems, ShapedItems;
    match s
    case Unary(_, e) => BracketKeeps(e, PREC_UNARY, PREC_NONE);
    case Group(e) => BracketKeeps(e, PREC_LOWEST, PREC_NONE);
    case Array(elems, comma, length) =>
      BracketListKeeps(elems, PREC_HIGHEST, comma);
      if !length.Missing? { BracketKeeps(length, PREC_LOWEST, PREC_NONE); }
    case Infix(l, op, r) =>
      PrecedenceBound(op);
      BracketKeeps(l, prec, Precedence(op));
      BracketKeeps(r, RightPrecedence(op), PREC_NONE);
    case Ternary(c, y, n) =>
      BracketKeeps(c, prec, PREC_TERNARY);
      BracketKeeps(y, PREC_LOWEST, PREC_NONE);
      BracketKeeps(n, PREC_TERNARY, PREC_NONE);
    case Call(f, args) =>
      BracketKeeps(f, prec, PREC_CALL);
      BracketListKeeps(args, PREC_COMMA, false);
    case Index(b, i) =>
      BracketKeeps(b, prec, PREC_CALL);
      BracketKeeps(i, PREC_LOWEST, PREC_NONE);
    case Dot(l, _) => BracketKeeps(l, prec, PREC_CALL);
    case If(c, _, body, els) =>
      BracketKeeps(c, PREC_LOWEST, PREC_NONE);
      BracketItemsKeep(body);
      BracketElseKeeps(els);
    case _ =>
  }

  lemma {:induction false} BracketListKeeps(ss: Syns, prec: nat, comma: bool)
    requires ShapedAll(ss) && BoundList(ss, prec, comma) && prec <= PREC_HIGHEST
    ensures BracketList(ss, prec, comma) == ss
    decreases ss
  {
    hide Bound, Edge, Shaped, Bracket;
    if ss.Syns? {
      BracketKeeps(ss.head, prec, if ss.tail.Syns? || comma then PREC_COMMA else PREC_NONE);
      BracketListKeeps(ss.tail, prec, comma);
    }
  }

  lemma {:induction false} BracketElseKeeps(e: Else)
    requires ShapedElse(e) && BoundElse(e)
    ensures BracketElse(e) == e
    decreases e
  {
    hide Bound, Edge, Shaped, Bracket, Inside, BracketItems, ShapedItems, BoundItems, Newlines;
    match e
    case NoElse =>
    case ElseIf(_, _, nested) => InsideKeeps(nested, PREC_LOWEST);
    case ElseBlock(_, _, items) => BracketItemsKeep(items);
  }

  lemma {:induction false} BracketStmtKeeps(s: Stmt)
    requires ShapedStmt(s) && BoundStmt(s)
    ensures BracketStmt(s) == s
    decreases s
  {
    hide Bound, Edge, Shaped, Bracket, BracketItems, ShapedItems, BoundItems;
    match s
    case Expression(e) => BracketKeeps(e, PREC_LOWEST, PREC_NONE);
    case Return(e) => BracketKeeps(e, PREC_LOWEST, PREC_NONE);
    case Decl(_, _, init) => if !init.Missing? { BracketKeeps(init, PREC_LOWEST, PREC_NONE); }
    case Func(_, _, _, block) => BracketItemsKeep(block);
  }

  lemma {:induction false} BracketItemsKeep(items: Items)
    requires ShapedItems(items) && BoundItems(items)
    ensures BracketItems(items) == items
    decreases items
  {
    hide ShapedStmt, BoundStmt, BracketStmt;
    match items
    case NoItems =>
    case Sep(_, rest) => BracketItemsKeep(rest);
    case Item(stmt, rest) =>
      BracketStmtKeeps(stmt);
      BracketItemsKeep(rest);
  }
}
