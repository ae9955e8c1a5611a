/** How much memory the lists of a program take: a closed form, and it is quadratic in the length of a list. */
module Footprints {
  import opened Tokens
  import opened Syntax
  import opened Pool
  import opened Bits
  import opened Arenas
  import opened Heaps
  import HeapShapes
  import HeapFrames
  import HeldTrees

  /**
   The bytes of a list of `n` elements of `unit` bytes that is pushed onto element by element. `between`:
   something is requested between its first two pushes, so that the second one moves it too.
   */
  ghost function ListBytes(unit: nat, n: nat, between: bool): nat {
    if n == 0 then 0
    else if n == 1 then 2 * unit
    else unit * (n * n + n - 4) + if between then 4 * unit else 0
  }

  /** The part whose requests come between the first two pushes of a list. */
  ghost function Second(t: Tree): nat {
    if t.ArrayTree? then 0 else 1
  }

  ghost function ListLength(t: Tree): nat {
    match t
    case BlockTree(stmts) => |List(stmts)|
    case CallTree(_, args) => |List(args)|
    case ArrayTree(elems, _) => |List(elems)|
    case _ => 0
  }

  /** The bytes that building a tree requests. */
  ghost function BytesOf(t: Tree): nat
    decreases Size(t), 0, 0
  {
    if t.NoTree? then 0
    else
      SizeOfParts(t);
      var n := ListLength(t);
      var between := n >= 2 && Second(t) < |Parts(t)| && (PartSize(Parts(t), Second(t)); BytesOf(Parts(t)[Second(t)]) > 0);
      BytesAll(Parts(t)) + ListBytes(8, n, between) + if t.FuncTree? then ListBytes(48, |t.params|, false) + 40 else 0
  }

  ghost function BytesAll(parts: seq<Tree>): nat
    decreases Sizes(parts), 1, |parts|
  {
    if parts == [] then 0 else BytesOf(parts[0]) + BytesAll(parts[1..])
  }

  lemma {:induction false} BytesAppend(a: seq<Tree>, b: seq<Tree>)
    ensures BytesAll(a + b) == BytesAll(a) + BytesAll(b)
    decreases |a|
  {
    hide BytesOf, Size;
    if a == [] {
      assert a + b == b;
    } else {
      assert (a + b)[1..] == a[1..] + b;
      BytesAppend(a[1..], b);
    }
  }

  lemma {:induction false} BytesOne(t: Tree)
    ensures BytesAll([t]) == BytesOf(t) && BytesAll([]) == 0
  {
    hide BytesOf, Size;
    assert [t][1..] == [];
  }

  /** One step: the list stays where it is, or moves to the top with room for twice as many. */
  lemma {:induction false} ReserveTakes(h: Heap, s: Slots, unit: nat)
    requires (unit == 8 || unit == 48) && |h.mem| % 8 == 0 && Within(h, s)
    ensures var p := Reserve(h, s, unit);
            var n := s.count + 1;
            if s.at.Some? && s.at.value + unit * n == |h.mem| then |p.heap.mem| == |h.mem| && p.slots.at == s.at
            else |p.heap.mem| == |h.mem| + 2 * (unit * n) && p.slots.at == Some(|h.mem|)
  {
    hide Copying.Memcpy;
    var n := s.count + 1;
    assert unit * NextCapacity(n) == 2 * (unit * n);
    assert RoundUp(|h.mem|, 8) == |h.mem|;
  }

  /** How far the top is above the start of a list of `n` elements. */
  ghost predicate Gap(unit: nat, n: nat, gap: nat) {
    || (n == 1 && gap >= 2 * unit)
    || (n == 2 && (gap == 2 * unit || gap >= 4 * unit))
    || (n >= 3 && gap >= 2 * (unit * n))
  }

  /** The third push and every later one moves the list. */
  lemma {:induction false} GapMoves(unit: nat, n: nat, gap: nat)
    requires 0 < unit && n >= 2 && Gap(unit, n, gap)
    ensures gap != unit * (n + 1)
  {
    if n >= 3 { assert 2 * (unit * n) == unit * (n + 1) + unit * (n - 1) && unit * (n - 1) >= unit * 1; }
  }

  lemma {:induction false} OneMoreByte(unit: nat, n: nat, between: bool)
    requires unit == 8 || unit == 48
    ensures n >= 2 ==> ListBytes(unit, n + 1, between) == ListBytes(unit, n, between) + 2 * (unit * (n + 1))
    ensures ListBytes(unit, 1, between) == 2 * unit && ListBytes(unit, 2, between) == 2 * unit + if between then 4 * unit else 0
    ensures ListBytes(unit, n, between) % 8 == 0 && (n > 0 ==> ListBytes(unit, n, between) >= 2 * unit)
  {
  }

  // ----- Every tree -----

  /** The heap is made of eight-byte words, and so is what a tree adds: nothing, or two words at least. */
  ghost predicate Adds(h: Heap, r: Heap, bytes: nat) {
    |r.mem| == |h.mem| + bytes && bytes % 8 == 0 && (bytes == 0 || bytes >= 16)
  }

  /** Building a tree takes exactly its bytes. */
  lemma {:induction false} BuildTakes(t: Tree, base: nat, h: Heap)
    requires |h.mem| % 8 == 0
    ensures Adds(h, Build(t, base, h), BytesOf(t))
    decreases Size(t), 0, 1
  {
    hide Build, BytesOf, Size, Parts;
    if t.NoTree? {
      NothingTaken(base, h);
    } else {
      SizeOfParts(t);
      if t.BlockTree? {
        BlockTakes(t, base, h);
      } else if t.CallTree? {
        CallTakes(t, base, h);
      } else if t.ArrayTree? {
        ArrayTakes(t, base, h);
      } else if t.FuncTree? {
        FuncTakes(t, base, h);
      } else {
        PlainTakes(t, base, h);
      }
    }
  }

  lemma {:induction false} NothingTaken(base: nat, h: Heap)
    ensures Build(NoTree, base, h) == h && BytesOf(NoTree) == 0
    ensures BuildAll([], base, h) == h && BytesAll([]) == 0
  {
  }

  lemma {:induction false} PlainBytes(t: Tree)
    requires !t.NoTree? && !t.BlockTree? && !t.CallTree? && !t.ArrayTree? && !t.FuncTree?
    ensures BytesOf(t) == BytesAll(Parts(t))
  {
    hide BytesAll, Parts, Size;
  }

  lemma {:induction false} PlainTakes(t: Tree, base: nat, h: Heap)
    requires !t.NoTree? && !t.BlockTree? && !t.CallTree? && !t.ArrayTree? && !t.FuncTree? && |h.mem| % 8 == 0
    ensures Adds(h, Build(t, base, h), BytesOf(t))
    decreases Size(t), 0, 0
  {
    hide Build, BuildAll, BytesOf, BytesAll, Size, Sizes, Parts, Earlier;
    var parts, k := Parts(t), Earlier(t);
    SizeOfParts(t);
    HeapShapes.HeapParts(t, base, h);
    PlainBytes(t);
    assert parts == parts[..k] + parts[k..];
    BytesAppend(parts[..k], parts[k..]);
    AllTake(parts[..k], base, h);
    AllTake(parts[k..], base + Sizes(parts[..k]) + 1, BuildAll(parts[..k], base, h));
  }

  lemma {:induction false} AllTake(parts: seq<Tree>, base: nat, h: Heap)
    requires |h.mem| % 8 == 0
    ensures Adds(h, BuildAll(parts, base, h), BytesAll(parts))
    decreases Sizes(parts), 1, |parts|
  {
    hide Build, BytesOf, Size;
    if parts != [] {
      BuildTakes(parts[0], base, h);
      AllTake(parts[1..], base + Size(parts[0]), Build(parts[0], base, h));
    }
  }

  // ----- Lists -----

  lemma {:induction false} BytesSnoc(ts: seq<Tree>, t: Tree)
    ensures BytesAll(ts + [t]) == BytesAll(ts) + BytesOf(t)
  {
    hide BytesOf, BytesAll;
    BytesAppend(ts, [t]);
    BytesOne(t);
  }

  /** Something is requested by the element at `i`. */
  ghost predicate Between(ts: seq<Tree>, i: nat) {
    |ts| >= 2 && i < |ts| && BytesOf(ts[i]) > 0
  }

  /** A list's place and the bytes it took, with `own` bytes requested since its last push. */
  ghost predicate ListTook(h: Heap, p: Pushed, unit: nat, bytes: nat, own: nat, between: bool) {
    && |p.heap.mem| == |h.mem| + bytes + ListBytes(unit, p.slots.count, between) && bytes % 8 == 0
    && Within(p.heap, p.slots) && (own == 0 || own >= 16)
    && (p.slots.count == 0 ==> p.slots.at.None?)
    && (p.slots.count > 0 ==>
          && p.slots.at.Some?
          && var gap := |p.heap.mem| - p.slots.at.value;
             gap >= own && (p.slots.count == 1 ==> gap == 2 * unit + own) && Gap(unit, p.slots.count, gap))
  }

  /** Room for one more element of a list. */
  lemma {:induction false} ListGrows(h: Heap, p: Pushed, unit: nat, bytes: nat, own: nat, between: bool)
    requires ListTook(h, p, unit, bytes, own, between) && |h.mem| % 8 == 0 && (unit == 8 || unit == 48)
    requires p.slots.count == 1 ==> (between <==> own > 0)
    requires unit == 48 ==> own == 0
    ensures var room := Reserve(p.heap, p.slots, unit);
            var slots := Slots(room.slots.at, p.slots.count + 1);
            ListTook(h, Pushed(room.heap, slots), unit, bytes, 0, between)
  {
    hide Reserve, ListBytes;
    var n := p.slots.count;
    OneMoreByte(unit, n, between);
    NoBytes(unit, between);
    ReserveTakes(p.heap, p.slots, unit);
    if n >= 2 {
      GapMoves(unit, n, |p.heap.mem| - p.slots.at.value);
    } else {
      assert unit * 1 == unit && unit * 2 == 2 * unit;
    }
  }

  lemma NoBytes(unit: nat, between: bool)
    ensures ListBytes(unit, 0, between) == 0
  {
  }

  /** More requests after the last push. */
  lemma {:induction false} ListWaits(h: Heap, p: Pushed, r: Heap, unit: nat, bytes: nat, more: nat, between: bool)
    requires ListTook(h, p, unit, bytes, 0, between) && Adds(p.heap, r, more) && unit == 8
    ensures ListTook(h, Pushed(r, p.slots), unit, bytes + more, more, between)
  {
  }

  lemma {:induction false} ArgsTake(ts: seq<Tree>, base: nat, h: Heap)
    requires |h.mem| % 8 == 0
    ensures ListTook(h, PushArgs(ts, base, h), 8, BytesAll(ts), if ts == [] then 0 else BytesOf(ts[|ts| - 1]), Between(ts, 0))
    decreases Sizes(ts), 1, |ts|
  {
    hide BytesOf, BytesAll, Build, ListTook, Size;
    if ts == [] {
      NoListTook(h);
    } else {
      var n := |ts| - 1;
      var front, t := ts[..n], ts[n];
      assert ts == front + [t];
      SizesLast(ts);
      BytesSnoc(front, t);
      ArgsTake(front, base, h);
      ArgTakes(front, t, base, h);
    }
  }

  lemma {:induction false} NoListTook(h: Heap)
    ensures ListTook(h, Pushed(h, EMPTY), 8, 0, 0, false) && ListTook(h, Pushed(h, EMPTY), 48, 0, 0, false) && BytesAll([]) == 0
    ensures PushArgs([], 0, h) == Pushed(h, EMPTY)
  {
  }

  /** Before the second push it does not matter what comes between the first two. */
  lemma {:induction false} EitherWay(h: Heap, p: Pushed, unit: nat, bytes: nat, own: nat, b1: bool, b2: bool)
    requires ListTook(h, p, unit, bytes, own, b1) && (p.slots.count < 2 || b1 == b2)
    ensures ListTook(h, p, unit, bytes, own, b2)
  {
  }

  /** What is stored changes no length. */
  lemma {:induction false} StoredTook(h: Heap, p: Pushed, q: Pushed, unit: nat, bytes: nat, own: nat, between: bool)
    requires ListTook(h, p, unit, bytes, own, between) && |q.heap.mem| == |p.heap.mem| && q.slots == p.slots
    ensures ListTook(h, q, unit, bytes, own, between)
  {
  }

  lemma {:induction false} Counts(h: Heap, p: Pushed, unit: nat, bytes: nat, own: nat, between: bool)
    requires ListTook(h, p, unit, bytes, own, between)
    ensures |h.mem| % 8 == 0 && (unit == 8 || unit == 48) ==> |p.heap.mem| % 8 == 0
    ensures Within(p.heap, p.slots)
  {
    hide ListBytes, Gap;
    if unit == 8 || unit == 48 { OneMoreByte(unit, p.slots.count, between); }
  }

  lemma {:induction false} BetweenSnoc(front: seq<Tree>, t: Tree, i: nat)
    requires i < 2
    ensures |front| >= 2 ==> Between(front + [t], i) == Between(front, i)
    ensures |front| == 1 ==> (Between(front + [t], i) <==> BytesOf(if i == 0 then front[0] else t) > 0)
  {
    hide BytesOf;
  }

  lemma {:induction false} ArgTakes(front: seq<Tree>, t: Tree, base: nat, h: Heap)
    requires |h.mem| % 8 == 0
    requires ListTook(h, PushArgs(front, base, h), 8, BytesAll(front),
                      if front == [] then 0 else BytesOf(front[|front| - 1]), Between(front, 0))
    ensures ListTook(h, PushArgs(front + [t], base, h), 8, BytesAll(front) + BytesOf(t), BytesOf(t), Between(front + [t], 0))
    decreases Size(t), 0, 2
  {
    hide BytesOf, BytesAll, Build, ListTook, Size, Sizes, PushArgs, Reserve, Between;
    var between := Between(front + [t], 0);
    var own := if front == [] then 0 else BytesOf(front[|front| - 1]);
    var p := PushArgs(front, base, h);
    HeapShapes.HeapSnoc(front, t, base, h);
    BetweenSnoc(front, t, 0);
    Counts(h, p, 8, BytesAll(front), own, Between(front, 0));
    EitherWay(h, p, 8, BytesAll(front), own, Between(front, 0), between);
    ListGrows(h, p, 8, BytesAll(front), own, between);
    var room := Reserve(p.heap, p.slots, 8);
    var slots := Slots(room.slots.at, p.slots.count + 1);
    Counts(h, Pushed(room.heap, slots), 8, BytesAll(front), 0, between);
    BuildTakes(t, base + Sizes(front), room.heap);
    var r := Build(t, base + Sizes(front), room.heap);
    ListWaits(h, Pushed(room.heap, slots), r, 8, BytesAll(front), BytesOf(t), between);
    StoredTook(h, Pushed(r, slots), PushArgs(front + [t], base, h), 8, BytesAll(front) + BytesOf(t), BytesOf(t), between);
  }

  lemma {:induction false} StmtsTake(ts: seq<Tree>, node: nat, base: nat, h: Heap)
    requires |h.mem| % 8 == 0
    ensures ListTook(h, PushStmts(ts, node, base, h), 8, BytesAll(ts), 0, Between(ts, 1))
    decreases Sizes(ts), 1, |ts|
  {
    hide BytesOf, BytesAll, Build, ListTook, Size, Between;
    if ts == [] {
      NoListTook(h);
      NoneBetween();
    } else {
      var n := |ts| - 1;
      var front, t := ts[..n], ts[n];
      assert ts == front + [t];
      SizesLast(ts);
      BytesSnoc(front, t);
      StmtsTake(front, node, base, h);
      StmtTakes(front, t, node, base, h);
    }
  }

  lemma NoneBetween()
    ensures !Between([], 0) && !Between([], 1)
  {
  }

  lemma {:induction false} StmtSnoc(front: seq<Tree>, t: Tree, node: nat, base: nat, h: Heap)
    ensures var p := PushStmts(front, node, base, h);
            PushStmts(front + [t], node, base, h) == PushStmt(t, node, base + Sizes(front), p.heap, p.slots)
  {
    hide PushStmt, Size;
    assert (front + [t])[..|front|] == front;
  }

  lemma {:induction false} StmtTakes(front: seq<Tree>, t: Tree, node: nat, base: nat, h: Heap)
    requires |h.mem| % 8 == 0 && ListTook(h, PushStmts(front, node, base, h), 8, BytesAll(front), 0, Between(front, 1))
    ensures ListTook(h, PushStmts(front + [t], node, base, h), 8, BytesAll(front) + BytesOf(t), 0, Between(front + [t], 1))
    decreases Size(t), 0, 2
  {
    hide BytesOf, BytesAll, Build, ListTook, Size, Sizes, PushStmts, Reserve, Between;
    var between, bytes := Between(front + [t], 1), BytesAll(front) + BytesOf(t);
    var p := PushStmts(front, node, base, h);
    StmtSnoc(front, t, node, base, h);
    BetweenSnoc(front, t, 1);
    Counts(h, p, 8, BytesAll(front), 0, Between(front, 1));
    EitherWay(h, p, 8, BytesAll(front), 0, Between(front, 1), between);
    BuildTakes(t, base + Sizes(front), p.heap);
    var r := Build(t, base + Sizes(front), p.heap);
    ListWaits(h, p, r, 8, BytesAll(front), BytesOf(t), between);
    Counts(h, Pushed(r, p.slots), 8, bytes, BytesOf(t), between);
    ListGrows(h, Pushed(r, p.slots), 8, bytes, BytesOf(t), between);
    var room := Reserve(r, p.slots, 8);
    var pushed := Pushed(room.heap, Slots(room.slots.at, p.slots.count + 1));
    StoredTook(h, pushed, PushStmts(front + [t], node, base, h), 8, bytes, 0, between);
  }

  lemma {:induction false} ParamsTake(ps: seq<Param>, h: Heap)
    requires |h.mem| % 8 == 0
    ensures ListTook(h, PushParams(ps, h), 48, 0, 0, false)
  {
    hide ListTook, Reserve;
    if ps == [] {
      NoListTook(h);
    } else {
      var n := |ps| - 1;
      ParamsTake(ps[..n], h);
      var p := PushParams(ps[..n], h);
      Counts(h, p, 48, 0, 0, false);
      ListGrows(h, p, 48, 0, 0, false);
      var room := Reserve(p.heap, p.slots, 48);
      StoredTook(h, Pushed(room.heap, Slots(room.slots.at, p.slots.count + 1)), PushParams(ps, h), 48, 0, 0, false);
    }
  }

  // ----- The trees with lists -----

  lemma {:induction false} Took(h: Heap, p: Pushed, bytes: nat, own: nat, between: bool)
    requires ListTook(h, p, 8, bytes, own, between)
    ensures |p.heap.mem| == |h.mem| + bytes + ListBytes(8, p.slots.count, between) && bytes % 8 == 0
    ensures var list := ListBytes(8, p.slots.count, between);
            list % 8 == 0 && if p.slots.count == 0 then list == 0 else list >= 16
  {
    OneMoreByte(8, p.slots.count, between);
  }

  lemma {:induction false} BlockTakes(t: Tree, base: nat, h: Heap)
    requires t.BlockTree? && |h.mem| % 8 == 0
    ensures Adds(h, Build(t, base, h), BytesOf(t))
    decreases Size(t), 0, 0
  {
    hide Build, BytesOf, BytesAll, ListTook, Size, PushStmts, ListBytes, Between;
    var ts, start := List(t.stmts), SetList(h, base, EMPTY);
    SizeOfParts(t);
    HeapShapes.HeapBlock(t.stmts, base, h);
    StmtsTake(ts, base, base + 1, start);
    Took(start, PushStmts(ts, base, base + 1, start), BytesAll(ts), 0, Between(ts, 1));
    ListTreeBytes(t);
    if ts == [] { BytesOne(t); }
  }

  /** The bytes of a tree with a list. */
  lemma {:induction false} ListTreeBytes(t: Tree)
    requires t.BlockTree? || t.CallTree? || t.ArrayTree?
    ensures t.BlockTree? ==> BytesOf(t) == BytesAll(List(t.stmts)) + ListBytes(8, |List(t.stmts)|, Between(List(t.stmts), 1))
    ensures t.CallTree? ==>
              BytesOf(t) == BytesOf(t.callee) + BytesAll(List(t.args)) + ListBytes(8, |List(t.args)|, Between(List(t.args), 0))
    ensures t.ArrayTree? ==>
              BytesOf(t) == BytesAll(List(t.elems)) + BytesOf(t.length) + ListBytes(8, |List(t.elems)|, Between(List(t.elems), 0))
  {
    hide BytesAll, Size, ListBytes, List;
    SizeOfParts(t);
    if t.CallTree? {
      BytesAppend([t.callee], List(t.args));
      BytesOne(t.callee);
    } else if t.ArrayTree? {
      BytesSnoc(List(t.elems), t.length);
    }
  }

  lemma {:induction false} CallTakes(t: Tree, base: nat, h: Heap)
    requires t.CallTree? && |h.mem| % 8 == 0
    ensures Adds(h, Build(t, base, h), BytesOf(t))
    decreases Size(t), 0, 0
  {
    hide Build, BytesOf, BytesAll, ListTook, Size, Sizes, PushArgs, ListBytes, Between;
    var ts, at := List(t.args), base + Size(t.callee);
    CallSizes(t);
    HeapShapes.HeapCall(t.callee, t.args, base, h);
    BuildTakes(t.callee, base, h);
    var start := Build(t.callee, base, h);
    ArgsTake(ts, at + 1, start);
    Took(start, PushArgs(ts, at + 1, start), BytesAll(ts), if ts == [] then 0 else BytesOf(ts[|ts| - 1]), Between(ts, 0));
    ListTreeBytes(t);
    if ts == [] { BytesOne(t); }
  }

  lemma {:induction false} CallSizes(t: Tree)
    requires t.CallTree?
    ensures Size(t.callee) < Size(t) && Sizes(List(t.args)) < Size(t)
  {
    SizesList(t.args);
  }

  lemma {:induction false} ArrayTakes(t: Tree, base: nat, h: Heap)
    requires t.ArrayTree? && |h.mem| % 8 == 0
    ensures Adds(h, Build(t, base, h), BytesOf(t))
    decreases Size(t), 0, 0
  {
    hide Build, BytesOf, BytesAll, ListTook, Size, Sizes, PushArgs, ListBytes, Between;
    var ts := List(t.elems);
    ArrayParts(t);
    HeapShapes.HeapArray(t.elems, t.length, base, h);
    ArgsTake(ts, base + 1, h);
    var p := PushArgs(ts, base + 1, h);
    Took(h, p, BytesAll(ts), if ts == [] then 0 else BytesOf(ts[|ts| - 1]), Between(ts, 0));
    BuildTakes(t.length, base + 1 + Sizes(ts), p.heap);
    ListTreeBytes(t);
    if ts == [] { BytesOne(t); }
  }

  lemma {:induction false} FuncTakes(t: Tree, base: nat, h: Heap)
    requires t.FuncTree? && |h.mem| % 8 == 0
    ensures Adds(h, Build(t, base, h), BytesOf(t))
    decreases Size(t), 0, 0
  {
    hide BuildAll, BytesOf, BytesAll, Size, Sizes, Describe, Parts, Earlier, ListBytes;
    FuncParts(t);
    HeapFrames.NoPartsYet(t, base, h);
    BuildTakes(t.ident, base + 1, h);
    var start := Build(t.ident, base + 1, h);
    DescribeTakes(t.params, base, start);
    BuildTakes(t.block, base + 1 + Size(t.ident), Describe(t.params, base, start));
    FuncBytes(t);
  }

  lemma {:induction false} FuncBytes(t: Tree)
    requires t.FuncTree?
    ensures BytesOf(t) == BytesOf(t.ident) + BytesOf(t.block) + ListBytes(48, |t.params|, false) + 40
  {
    hide BytesAll, Size;
    SizeOfParts(t);
    BytesAppend([t.ident], [t.block]);
    BytesOne(t.ident);
    BytesOne(t.block);
    assert Parts(t) == [t.ident] + [t.block];
  }

  lemma {:induction false} DescribeTakes(ps: seq<Param>, node: nat, h: Heap)
    requires |h.mem| % 8 == 0
    ensures var bytes := ListBytes(48, |ps|, false) + 40;
            |Describe(ps, node, h).mem| == |h.mem| + bytes && bytes % 8 == 0
  {
    hide PushParams, ListBytes;
    ParamsTake(ps, h);
    OneMoreByte(48, |ps|, false);
    assert RoundUp(|PushParams(ps, h).heap.mem|, 8) == |PushParams(ps, h).heap.mem|;
  }

  /** The trees that ask for memory are those that take some. */
  lemma {:induction false} AsksExactlyWhen(t: Tree)
    ensures HeldTrees.Asks(t) <==> BytesOf(t) > 0
  {
    hide Build, BytesOf, HeldTrees.Asks, HeapFrames.Frame;
    var h := Heap([], map[]);
    BuildTakes(t, 0, h);
    HeapFrames.BuildFrame(t, 0, h);
  }

  /** A block of two or more statements that ask for nothing takes a number of bytes quadratic in their number. */
  lemma {:induction false} PlainBlockBytes(t: Tree)
    requires t.BlockTree? && |List(t.stmts)| >= 2 && forall s :: s in List(t.stmts) ==> BytesOf(s) == 0
    ensures var n := |List(t.stmts)|;
            BytesOf(t) == 8 * n * n + 8 * n - 32
  {
    hide BytesOf, BytesAll, Size;
    ListTreeBytes(t);
    NothingAsked(List(t.stmts));
    assert List(t.stmts)[1] in List(t.stmts);
  }

  lemma {:induction false} NothingAsked(ts: seq<Tree>)
    requires forall s :: s in ts ==> BytesOf(s) == 0
    ensures BytesAll(ts) == 0
    decreases |ts|
  {
    hide BytesOf, Size;
    if ts != [] { NothingAsked(ts[1..]); }
  }
}
