/** No bracketing that is bound for its place has fewer parentheses than `Brackets.Bracket` puts. */
module Minimality {
  import opened Tokens
  import opened Syntax
  import opened Grammar
  import opened Brackets

  // ----- Without parentheses -----

  ghost function Strip(s: Syn): Syn {
    match s
    case Missing => s
    case Leaf(_) => s
    case Unary(op, e) => Unary(op, Strip(e))
    case Group(e) => Strip(e)
    case Array(elems, comma, length) => Array(StripAll(elems), comma, Strip(length))
    case Infix(l, op, r) => Infix(Strip(l), op, Strip(r))
    case Ternary(c, y, n) => Ternary(Strip(c), Strip(y), Strip(n))
    case Call(f, args) => Call(Strip(f), StripAll(args))
    case Index(b, i) => Index(Strip(b), Strip(i))
    case Dot(l, member) => Dot(Strip(l), member)
    case If(c, newlines, body, els) => If(Strip(c), newlines, StripItems(body), StripElse(els))
  }

  ghost function StripAll(ss: Syns): Syns {
    match ss
    case NoSyns => NoSyns
    case Syns(head, tail) => Syns(Strip(head), StripAll(tail))
  }

  ghost function StripElse(e: Else): Else {
    match e
    case NoElse => NoElse
    case ElseIf(before, after, nested) => ElseIf(before, after, Strip(nested))
    case ElseBlock(before, after, items) => ElseBlock(before, after, StripItems(items))
  }

  ghost function StripStmt(s: Stmt): Stmt {
    match s
    case Expression(e) => Expression(Strip(e))
    case Return(e) => Return(Strip(e))
    case Decl(isConst, declared, init) => Decl(isConst, declared, Strip(init))
    case Func(keyword, named, params, block) => Func(keyword, named, params, StripItems(block))
  }

  ghost function StripItems(items: Items): Items {
    match items
    case NoItems => NoItems
    case Sep(mark, rest) => Sep(mark, StripItems(rest))
    case Item(stmt, rest) => Item(StripStmt(stmt), StripItems(rest))
  }

  // ----- How many there are -----

  ghost function Groups(s: Syn): nat {
    match s
    case Missing => 0
    case Leaf(_) => 0
    case Unary(_, e) => Groups(e)
    case Group(e) => 1 + Groups(e)
    case Array(elems, _, length) => GroupsAll(elems) + Groups(length)
    case Infix(l, _, r) => Groups(l) + Groups(r)
    case Ternary(c, y, n) => Groups(c) + Groups(y) + Groups(n)
    case Call(f, args) => Groups(f) + GroupsAll(args)
    case Index(b, i) => Groups(b) + Groups(i)
    case Dot(l, _) => Groups(l)
    case If(c, _, body, els) => Groups(c) + GroupsItems(body) + GroupsElse(els)
  }

  ghost function GroupsAll(ss: Syns): nat {
    match ss
    case NoSyns => 0
    case Syns(head, tail) => Groups(head) + GroupsAll(tail)
  }

  ghost function GroupsElse(e: Else): nat {
    match e
    case NoElse => 0
    case ElseIf(_, _, nested) => Groups(nested)
    case ElseBlock(_, _, items) => GroupsItems(items)
  }

  ghost function GroupsStmt(s: Stmt): nat {
    match s
    case Expression(e) => Groups(e)
    case Return(e) => Groups(e)
    case Decl(_, _, init) => Groups(init)
    case Func(_, _, _, block) => GroupsItems(block)
  }

  ghost function GroupsItems(items: Items): nat {
    match items
    case NoItems => 0
    case Sep(_, rest) => GroupsItems(rest)
    case Item(stmt, rest) => GroupsStmt(stmt) + GroupsItems(rest)
  }

  // ----- A tighter place costs at most one pair of parentheses -----

  /** An operand moved to a place of higher precedence: only its left spine can notice, and one pair is enough. */
  lemma {:induction false} TighterCostsOne(s: Syn, prec: nat)
    ensures Groups(Inside(s, prec)) <= 1 + Groups(Inside(s, PREC_LOWEST))
    decreases s, 0
  {
    hide Groups, Inside, Bracket, GroupsAll, GroupsItems, GroupsElse, BracketList, BracketItems, BracketElse;
    InsideGroups(s, prec);
    InsideGroups(s, PREC_LOWEST);
    match s
    case Infix(l, op, _) => SpineCostsOne(l, prec, Precedence(op));
    case Ternary(c, _, _) => SpineCostsOne(c, prec, PREC_TERNARY);
    case Call(f, _) => SpineCostsOne(f, prec, PREC_CALL);
    case Index(b, _) => SpineCostsOne(b, prec, PREC_CALL);
    case Dot(l, _) => SpineCostsOne(l, prec, PREC_CALL);
    case _ => NoSpine(s, prec);
  }

  /** What the parts of `s` contribute; the first operand apart from the others. */
  ghost function Others(s: Syn): nat {
    match s
    case Infix(_, op, r) => Groups(Bracket(r, RightPrecedence(op), PREC_NONE))
    case Ternary(_, y, n) => Groups(Bracket(y, PREC_LOWEST, PREC_NONE)) + Groups(Bracket(n, PREC_TERNARY, PREC_NONE))
    case Call(_, args) => GroupsAll(BracketList(args, PREC_COMMA, false))
    case Index(_, i) => Groups(Bracket(i, PREC_LOWEST, PREC_NONE))
    case _ => 0
  }

  lemma {:induction false} InsideGroups(s: Syn, prec: nat)
    ensures s.Infix? ==> Groups(Inside(s, prec)) == Groups(Bracket(s.lhs, prec, Precedence(s.infix))) + Others(s)
    ensures s.Ternary? ==> Groups(Inside(s, prec)) == Groups(Bracket(s.cond, prec, PREC_TERNARY)) + Others(s)
    ensures s.Call? ==> Groups(Inside(s, prec)) == Groups(Bracket(s.callee, prec, PREC_CALL)) + Others(s)
    ensures s.Index? ==> Groups(Inside(s, prec)) == Groups(Bracket(s.base, prec, PREC_CALL)) + Others(s)
    ensures s.Dot? ==> Groups(Inside(s, prec)) == Groups(Bracket(s.owner, prec, PREC_CALL)) + Others(s)
  {
    hide Bracket, BracketList, GroupsAll, RuleOf;
  }

  lemma {:induction false} NoSpine(s: Syn, prec: nat)
    requires !s.Infix? && !s.Ternary? && !s.Call? && !s.Index? && !s.Dot?
    ensures Inside(s, prec) == Inside(s, PREC_LOWEST)
  {
    hide Bracket, BracketList, BracketItems, BracketElse;
  }

  lemma {:induction false} SpineCostsOne(s: Syn, prec: nat, op: nat)
    ensures Groups(Bracket(s, prec, op)) <= 1 + Groups(Bracket(s, PREC_LOWEST, op))
    decreases s, 1
  {
    hide Groups, Inside, Top, Right;
    TighterCostsOne(s, prec);
    BracketGroups(s, prec, op);
    BracketGroups(s, PREC_LOWEST, op);
  }

  lemma {:induction false} BracketGroups(s: Syn, prec: nat, op: nat)
    ensures Groups(Bracket(s, prec, op)) ==
            if NeedsGroup(s, prec, op) then 1 + Groups(Inside(s, PREC_LOWEST)) else Groups(Inside(s, prec))
  {
    hide Inside, Top, Right;
  }

  // ----- Every bracketing that is bound has at least as many -----

  /** The bracketing of `b` without its parentheses has no more of them than `b`. */
  ghost predicate NoMore(b: Syn, prec: nat, op: nat) {
    Groups(Bracket(Strip(b), prec, op)) <= Groups(b)
  }

  ghost predicate NoMoreInside(b: Syn, prec: nat) {
    Groups(Inside(Strip(b), prec)) <= Groups(b)
  }

  ghost predicate NoMoreAll(bs: Syns, prec: nat, comma: bool) {
    GroupsAll(BracketList(StripAll(bs), prec, comma)) <= GroupsAll(bs)
  }

  ghost predicate NoMoreItems(items: Items) {
    GroupsItems(BracketItems(StripItems(items))) <= GroupsItems(items)
  }

  ghost predicate NoMoreElse(e: Else) {
    GroupsElse(BracketElse(StripElse(e))) <= GroupsElse(e)
  }

  ghost predicate NoMoreStmt(s: Stmt) {
    GroupsStmt(BracketStmt(StripStmt(s))) <= GroupsStmt(s)
  }

  lemma {:induction false} BoundHasNoFewer(b: Syn, prec: nat, op: nat)
    requires Shaped(b) && Bound(b, prec) && op <= Edge(b) && prec <= PREC_HIGHEST
    ensures NoMore(b, prec, op)
    decreases b, 2
  {
    hide Shaped, Bound, Edge, Bracket, Inside, Strip, Groups, Top, Right, NoMore, NoMoreInside;
    if b.Group? {
      ShapedGroup(b, prec);
      BoundHasNoFewer(b.inner, PREC_LOWEST, PREC_NONE);
      DropGroup(b, prec, op);
    } else {
      InsideHasNoFewer(b, prec);
      EdgeIsRight(b, prec);
      StripKeepsTop(b);
      NoGroupAround(b, prec, op);
    }
  }

  lemma {:induction false} ShapedGroup(b: Syn, prec: nat)
    requires b.Group? && Shaped(b) && Bound(b, prec)
    ensures Shaped(b.inner) && Bound(b.inner, PREC_LOWEST) && PREC_NONE <= Edge(b.inner)
  {
  }

  /** The pair around an operand pays for a tighter place. */
  lemma {:induction false} DropGroup(b: Syn, prec: nat, op: nat)
    requires b.Group? && Shaped(b) && NoMore(b.inner, PREC_LOWEST, PREC_NONE)
    ensures NoMore(b, prec, op)
  {
    hide Bracket, Inside, Top, Right, ShapedItems, ShapedAll, ShapedElse;
    var s := Strip(b.inner);
    assert Strip(b) == s && Groups(b) == 1 + Groups(b.inner);
    TighterCostsOne(s, prec);
    BracketGroups(s, prec, op);
    BracketGroups(s, PREC_LOWEST, PREC_NONE);
    StripIsShaped(b.inner);
    TopIsPositive(s);
  }

  lemma {:induction false} NoGroupAround(b: Syn, prec: nat, op: nat)
    requires prec < Top(Strip(b)) && op <= Right(Strip(b)) && NoMoreInside(b, prec)
    ensures NoMore(b, prec, op)
  {
    hide Bracket, Inside, Top, Right, Strip, Groups;
    BracketGroups(Strip(b), prec, op);
  }

  lemma {:induction false} StripKeepsTop(b: Syn)
    requires !b.Group?
    ensures Top(Strip(b)) == Top(b) && Right(Strip(b)) == Right(b)
  {
    hide RuleOf, StripAll, StripItems, StripElse;
  }

  lemma {:induction false} InsideHasNoFewer(b: Syn, prec: nat)
    requires !b.Group? && Shaped(b) && Bound(b, prec) && prec <= PREC_HIGHEST
    ensures NoMoreInside(b, prec)
    decreases b, 1
  {
    hide NoMore, NoMoreInside, NoMoreAll, NoMoreItems, NoMoreElse, Edge, RuleOf, ShapedLeaf;
    hide Groups, Inside, Strip, ShapedAll, ShapedItems, ShapedElse, BoundList, BoundItems, BoundElse;
    match b
    case Unary(_, e) => BoundHasNoFewer(e, PREC_UNARY, PREC_NONE); InsideUnary(b, prec);
    case Array(elems, comma, length) =>
      ListHasNoFewer(elems, PREC_HIGHEST, comma);
      if !length.Missing? { BoundHasNoFewer(length, PREC_LOWEST, PREC_NONE); }
      InsideArray(b, prec);
    case Infix(l, op, r) =>
      PrecedenceBound(op);
      BoundHasNoFewer(l, prec, Precedence(op));
      BoundHasNoFewer(r, RightPrecedence(op), PREC_NONE);
      InsideInfix(b, prec);
    case Ternary(c, y, n) =>
      BoundHasNoFewer(c, prec, PREC_TERNARY);
      BoundHasNoFewer(y, PREC_LOWEST, PREC_NONE);
      BoundHasNoFewer(n, PREC_TERNARY, PREC_NONE);
      InsideTernary(b, prec);
    case Call(f, args) =>
      BoundHasNoFewer(f, prec, PREC_CALL);
      ListHasNoFewer(args, PREC_COMMA, false);
      InsideCall(b, prec);
    case Index(base, i) =>
      BoundHasNoFewer(base, prec, PREC_CALL);
      BoundHasNoFewer(i, PREC_LOWEST, PREC_NONE);
      InsideIndex(b, prec);
    case Dot(l, _) => BoundHasNoFewer(l, prec, PREC_CALL); InsideDot(b, prec);
    case If(c, _, body, els) =>
      BoundHasNoFewer(c, PREC_LOWEST, PREC_NONE);
      ItemsHaveNoFewer(body);
      ElseHasNoFewer(els);
      InsideIf(b, prec);
    case _ => InsideLeaf(b, prec);
  }

  lemma {:induction false} InsideLeaf(b: Syn, prec: nat)
    requires b.Leaf?
    ensures NoMoreInside(b, prec)
  {
  }

  lemma {:induction false} InsideUnary(b: Syn, prec: nat)
    requires b.Unary? && NoMore(b.operand, PREC_UNARY, PREC_NONE)
    ensures NoMoreInside(b, prec)
  {
    hide Bracket;
  }

  lemma {:induction false} InsideArray(b: Syn, prec: nat)
    requires b.Array? && NoMoreAll(b.elems, PREC_HIGHEST, b.comma)
    requires !b.length.Missing? ==> Shaped(b.length) && NoMore(b.length, PREC_LOWEST, PREC_NONE)
    ensures NoMoreInside(b, prec)
  {
    hide Bracket, BracketList, ShapedAll, ShapedItems, ShapedElse;
    if !b.length.Missing? { StripIsShaped(b.length); }
    assert Strip(b) == Array(StripAll(b.elems), b.comma, Strip(b.length));
  }

  lemma {:induction false} InsideInfix(b: Syn, prec: nat)
    requires b.Infix? && NoMore(b.lhs, prec, Precedence(b.infix)) && NoMore(b.rhs, RightPrecedence(b.infix), PREC_NONE)
    ensures NoMoreInside(b, prec)
  {
    hide Bracket, RuleOf;
  }

  lemma {:induction false} InsideTernary(b: Syn, prec: nat)
    requires b.Ternary? && NoMore(b.cond, prec, PREC_TERNARY)
    requires NoMore(b.yes, PREC_LOWEST, PREC_NONE) && NoMore(b.no, PREC_TERNARY, PREC_NONE)
    ensures NoMoreInside(b, prec)
  {
    hide Bracket;
  }

  lemma {:induction false} InsideCall(b: Syn, prec: nat)
    requires b.Call? && NoMore(b.callee, prec, PREC_CALL) && NoMoreAll(b.args, PREC_COMMA, false)
    ensures NoMoreInside(b, prec)
  {
    hide Bracket, BracketList;
  }

  lemma {:induction false} InsideIndex(b: Syn, prec: nat)
    requires b.Index? && NoMore(b.base, prec, PREC_CALL) && NoMore(b.index, PREC_LOWEST, PREC_NONE)
    ensures NoMoreInside(b, prec)
  {
    hide Bracket;
  }

  lemma {:induction false} InsideDot(b: Syn, prec: nat)
    requires b.Dot? && NoMore(b.owner, prec, PREC_CALL)
    ensures NoMoreInside(b, prec)
  {
    hide Bracket;
  }

  lemma {:induction false} InsideIf(b: Syn, prec: nat)
    requires b.If? && NoMore(b.test, PREC_LOWEST, PREC_NONE) && NoMoreItems(b.body) && NoMoreElse(b.els)
    ensures NoMoreInside(b, prec)
  {
    hide Bracket, BracketItems, BracketElse, GroupsItems, GroupsElse;
  }

  lemma {:induction false} ListHasNoFewer(bs: Syns, prec: nat, comma: bool)
    requires ShapedAll(bs) && BoundList(bs, prec, comma) && prec <= PREC_HIGHEST
    ensures NoMoreAll(bs, prec, comma)
    decreases bs, 0
  {
    hide Bound, Edge, Shaped, Bracket, Strip, Groups;
    if bs.Syns? {
      BoundHasNoFewer(bs.head, prec, if bs.tail.Syns? || comma then PREC_COMMA else PREC_NONE);
      ListHasNoFewer(bs.tail, prec, comma);
    }
  }

  lemma {:induction false} ElseHasNoFewer(e: Else)
    requires ShapedElse(e) && BoundElse(e)
    ensures NoMoreElse(e)
    decreases e, 0
  {
    hide Bound, Edge, Shaped, Bracket, Inside, Strip, Groups, BracketItems, ShapedItems, BoundItems, Newlines, GroupsItems, StripItems;
    match e
    case NoElse =>
    case ElseIf(_, _, nested) => InsideHasNoFewer(nested, PREC_LOWEST);
    case ElseBlock(_, _, items) => ItemsHaveNoFewer(items);
  }

  lemma {:induction false} StmtHasNoFewer(s: Stmt)
    requires ShapedStmt(s) && BoundStmt(s)
    ensures NoMoreStmt(s)
    decreases s, 0
  {
    hide Bound, Edge, Shaped, Bracket, Strip, Groups, BracketItems, ShapedItems, BoundItems, GroupsItems, StripItems;
    match s
    case Expression(e) => BoundHasNoFewer(e, PREC_LOWEST, PREC_NONE);
    case Return(e) => BoundHasNoFewer(e, PREC_LOWEST, PREC_NONE);
    case Decl(_, _, init) =>
      StripMissing();
      if !init.Missing? { BoundHasNoFewer(init, PREC_LOWEST, PREC_NONE); StripIsShaped(init); NotMissing(Strip(init)); }
    case Func(_, _, _, block) => ItemsHaveNoFewer(block);
  }

  lemma StripMissing()
    ensures Strip(Missing) == Missing && Groups(Missing) == 0
  {
  }

  lemma {:induction false} NotMissing(s: Syn)
    requires Shaped(s)
    ensures !s.Missing?
  {
  }

  lemma {:induction false} ItemsHaveNoFewer(items: Items)
    requires ShapedItems(items) && BoundItems(items)
    ensures NoMoreItems(items)
    decreases items, 0
  {
    hide ShapedStmt, BoundStmt, BracketStmt, GroupsStmt, StripStmt;
    match items
    case NoItems =>
    case Sep(_, rest) => ItemsHaveNoFewer(rest);
    case Item(stmt, rest) =>
      StmtHasNoFewer(stmt);
      ItemsHaveNoFewer(rest);
  }

  // ----- Stripping keeps the shape, and once is enough -----

  lemma {:induction false} StripIsShaped(s: Syn)
    requires Shaped(s)
    ensures Shaped(Strip(s)) && Strip(Strip(s)) == Strip(s) && (s.If? ==> Strip(s).If?)
    decreases s, 0
  {
    hide ShapedLeaf, IsInfix, Newlines, ShapedAll, ShapedItems, ShapedElse, StripAll, StripItems, StripElse;
    match s
    case Unary(_, e) => StripIsShaped(e);
    case Group(e) => StripIsShaped(e);
    case Array(elems, _, length) =>
      StripAllIsShaped(elems);
      if !length.Missing? { StripIsShaped(length); }
    case Infix(l, _, r) => StripIsShaped(l); StripIsShaped(r);
    case Ternary(c, y, n) => StripIsShaped(c); StripIsShaped(y); StripIsShaped(n);
    case Call(f, args) => StripIsShaped(f); StripAllIsShaped(args);
    case Index(b, i) => StripIsShaped(b); StripIsShaped(i);
    case Dot(l, _) => StripIsShaped(l);
    case If(c, _, body, els) => StripIsShaped(c); StripItemsAreShaped(body); StripElseIsShaped(els);
    case _ =>
  }

  lemma {:induction false} StripAllIsShaped(ss: Syns)
    requires ShapedAll(ss)
    ensures ShapedAll(StripAll(ss)) && StripAll(StripAll(ss)) == StripAll(ss) && StripAll(ss).Syns? == ss.Syns?
    ensures ss.Syns? ==> StripAll(ss).tail.Syns? == ss.tail.Syns?
    decreases ss, 0
  {
    hide Shaped, Strip;
    if ss.Syns? {
      StripIsShaped(ss.head);
      StripAllIsShaped(ss.tail);
    }
  }

  lemma {:induction false} StripElseIsShaped(e: Else)
    requires ShapedElse(e)
    ensures ShapedElse(StripElse(e)) && StripElse(StripElse(e)) == StripElse(e)
    decreases e, 0
  {
    hide Shaped, Strip, Newlines, ShapedItems, StripItems;
    match e
    case NoElse =>
    case ElseIf(_, _, nested) => StripIsShaped(nested);
    case ElseBlock(_, _, items) => StripItemsAreShaped(items);
  }

  lemma {:induction false} StripStmtIsShaped(s: Stmt)
    requires ShapedStmt(s)
    ensures ShapedStmt(StripStmt(s)) && StripStmt(StripStmt(s)) == StripStmt(s)
    decreases s, 0
  {
    hide Shaped, Strip, ShapedItems, StripItems;
    match s
    case Expression(e) => StripIsShaped(e);
    case Return(e) => StripIsShaped(e);
    case Decl(_, _, init) => StripMissing(); if !init.Missing? { StripIsShaped(init); }
    case Func(_, _, _, block) => StripItemsAreShaped(block);
  }

  lemma {:induction false} StripItemsAreShaped(items: Items)
    requires ShapedItems(items)
    ensures ShapedItems(StripItems(items)) && StripItems(StripItems(items)) == StripItems(items) && StripItems(items).Item? == items.Item?
    decreases items, 0
  {
    hide ShapedStmt, StripStmt;
    match items
    case NoItems =>
    case Sep(_, rest) => StripItemsAreShaped(rest);
    case Item(stmt, rest) =>
      StripStmtIsShaped(stmt);
      StripItemsAreShaped(rest);
  }

  // ----- Bracketing adds parentheses and nothing else -----

  lemma {:induction false} BracketOnlyAddsGroups(s: Syn, prec: nat, op: nat)
    ensures Strip(Bracket(s, prec, op)) == Strip(s)
    decreases s, 1
  {
    hide Inside, Top, Right;
    InsideOnlyAddsGroups(s, prec);
    InsideOnlyAddsGroups(s, PREC_LOWEST);
  }

  lemma {:induction false} InsideOnlyAddsGroups(s: Syn, prec: nat)
    ensures Strip(Inside(s, prec)) == Strip(s)
    decreases s, 0
  {
    hide RuleOf, Bracket, BracketList, BracketItems, BracketElse, StripAll, StripItems, StripElse;
    match s
    case Unary(_, e) => BracketOnlyAddsGroups(e, PREC_UNARY, PREC_NONE);
    case Group(e) => BracketOnlyAddsGroups(e, PREC_LOWEST, PREC_NONE);
    case Array(elems, comma, length) =>
      ListOnlyAddsGroups(elems, PREC_HIGHEST, comma);
      BracketOnlyAddsGroups(length, PREC_LOWEST, PREC_NONE);
    case Infix(l, op, r) =>
      BracketOnlyAddsGroups(l, prec, Precedence(op));
      BracketOnlyAddsGroups(r, RightPrecedence(op), PREC_NONE);
    case Ternary(c, y, n) =>
      BracketOnlyAddsGroups(c, prec, PREC_TERNARY);
      BracketOnlyAddsGroups(y, PREC_LOWEST, PREC_NONE);
      BracketOnlyAddsGroups(n, PREC_TERNARY, PREC_NONE);
    case Call(f, args) =>
      BracketOnlyAddsGroups(f, prec, PREC_CALL);
      ListOnlyAddsGroups(args, PREC_COMMA, false);
    case Index(b, i) =>
      BracketOnlyAddsGroups(b, prec, PREC_CALL);
      BracketOnlyAddsGroups(i, PREC_LOWEST, PREC_NONE);
    case Dot(l, _) => BracketOnlyAddsGroups(l, prec, PREC_CALL);
    case If(c, _, body, els) =>
      BracketOnlyAddsGroups(c, PREC_LOWEST, PREC_NONE);
      ItemsOnlyAddGroups(body);
      ElseOnlyAddsGroups(els);
    case _ =>
  }

  lemma {:induction false} ListOnlyAddsGroups(ss: Syns, prec: nat, comma: bool)
    ensures StripAll(BracketList(ss, prec, comma)) == StripAll(ss)
    decreases ss, 0
  {
    hide Bracket, Strip;
    if ss.Syns? {
      BracketOnlyAddsGroups(ss.head, prec, if ss.tail.Syns? || comma then PREC_COMMA else PREC_NONE);
      ListOnlyAddsGroups(ss.tail, prec, comma);
    }
  }

  lemma {:induction false} ElseOnlyAddsGroups(e: Else)
    ensures StripElse(BracketElse(e)) == StripElse(e)
    decreases e, 0
  {
    hide Inside, Strip, BracketItems, StripItems;
    match e
    case NoElse =>
    case ElseIf(_, _, nested) => InsideOnlyAddsGroups(nested, PREC_LOWEST);
    case ElseBlock(_, _, items) => ItemsOnlyAddGroups(items);
  }

  lemma {:induction false} StmtOnlyAddsGroups(s: Stmt)
    ensures StripStmt(BracketStmt(s)) == StripStmt(s)
    decreases s, 0
  {
    hide Bracket, Strip, BracketItems, StripItems;
    match s
    case Expression(e) => BracketOnlyAddsGroups(e, PREC_LOWEST, PREC_NONE);
    case Return(e) => BracketOnlyAddsGroups(e, PREC_LOWEST, PREC_NONE);
    case Decl(_, _, init) => BracketOnlyAddsGroups(init, PREC_LOWEST, PREC_NONE);
    case Func(_, _, _, block) => ItemsOnlyAddGroups(block);
  }

  lemma {:induction false} ItemsOnlyAddGroups(items: Items)
    ensures StripItems(BracketItems(items)) == StripItems(items)
    decreases items, 0
  {
    hide BracketStmt, StripStmt;
    match items
    case NoItems =>
    case Sep(_, rest) => ItemsOnlyAddGroups(rest);
    case Item(stmt, rest) =>
      StmtOnlyAddsGroups(stmt);
      ItemsOnlyAddGroups(rest);
  }

  // ----- The results -----

  /**
   Of all derivations that differ from `s` in parentheses only and are bound for a place, the one
   that `Bracket` builds from `s` without its own parentheses has the fewest.
   */
  lemma {:induction false} BracketIsMinimal(s: Syn, b: Syn, prec: nat, op: nat)
    requires Shaped(s) && Shaped(b) && Strip(b) == Strip(s)
    requires Bound(b, prec) && op <= Edge(b) && prec <= PREC_HIGHEST && op <= PREC_COUNT
    ensures var m := Bracket(Strip(s), prec, op);
            Placed(Strip(s), m, prec, op) && Strip(m) == Strip(s) && Groups(m) <= Groups(b)
  {
    hide Shaped, Bound, Edge, Bracket, Strip, Groups, Placed;
    StripIsShaped(s);
    BracketPlaces(Strip(s), prec, op);
    BracketOnlyAddsGroups(Strip(s), prec, op);
    BoundHasNoFewer(b, prec, op);
  }

  /** The same for whole programs. */
  lemma {:induction false} ItemsBracketIsMinimal(items: Items, b: Items)
    requires ShapedItems(items) && ShapedItems(b) && BoundItems(b) && StripItems(b) == StripItems(items)
    ensures var m := BracketItems(StripItems(items));
            && ShapedItems(m) && BoundItems(m) && StripItems(m) == StripItems(items)
            && GroupsItems(m) <= GroupsItems(b)
  {
    hide ShapedItems, BoundItems, BracketItems, StripItems, GroupsItems;
    StripItemsAreShaped(items);
    BracketItemsFit(StripItems(items));
    ItemsOnlyAddGroups(StripItems(items));
    ItemsHaveNoFewer(b);
  }
}
