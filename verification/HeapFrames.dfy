/** What building a tree leaves alone in the arena, and when it asks for memory. */
module HeapFrames {
  import opened Syntax
  import opened Pool
  import opened Bits
  import opened Copying
  import Arenas
  import opened Growth
  import opened Heaps
  import opened ListSteps
  import opened HeldTrees

  /** Nothing below the old end of memory and no list of a node outside `[lo, hi)` has changed. */
  ghost predicate Frame(h: Heap, r: Heap, lo: nat, hi: nat) {
    && |h.mem| <= |r.mem| && r.mem[..|h.mem|] == h.mem && SameLists(h, r, lo, hi)
  }

  ghost predicate SameLists(h: Heap, r: Heap, lo: nat, hi: nat) {
    forall i: nat :: !(lo <= i < hi) ==> (i in r.lists <==> i in h.lists) && (i in h.lists ==> r.lists[i] == h.lists[i])
  }

  /** Building asks for nothing, or for at least sixteen bytes. */
  ghost predicate Grew(h: Heap, r: Heap, asks: bool) {
    if asks then |h.mem| + 2 * REF_BYTES <= |r.mem| else r.mem == h.mem
  }

  lemma FrameJoin(a: Heap, b: Heap, c: Heap, lo: nat, mid: nat, hi: nat)
    requires Frame(a, b, lo, mid) && Frame(b, c, mid, hi) && lo <= mid <= hi
    ensures Frame(a, c, lo, hi)
  {
    assert c.mem[..|b.mem|][..|a.mem|] == c.mem[..|a.mem|];
  }

  lemma FrameWiden(a: Heap, b: Heap, lo: nat, hi: nat, lo2: nat, hi2: nat)
    requires Frame(a, b, lo, hi) && lo2 <= lo && hi <= hi2
    ensures Frame(a, b, lo2, hi2)
  {
  }

  lemma GrewJoin(a: Heap, b: Heap, c: Heap, first: bool, second: bool)
    requires Grew(a, b, first) && Grew(b, c, second) && |a.mem| <= |b.mem| <= |c.mem|
    ensures Grew(a, c, first || second)
  {
  }

  /** Making room changes nothing below the old end; the list is where it was, or above it. */
  lemma {:induction false} ReserveFrame(h: Heap, s: Slots, unit: nat)
    requires 0 < unit && Within(h, s)
    ensures var r := Reserve(h, s, unit);
            && r.heap.mem[..|h.mem|] == h.mem
            && (r.slots.at == s.at || (r.slots.at.Some? && |h.mem| <= r.slots.at.value))
  {
    hide Memcpy, RoundUp;
    var count := s.count + 1;
    if s.at.Some? && s.at.value + unit * count != |h.mem| {
      Arenas.ElementsFit(unit, count);
      var g := Take(h.mem, unit * Arenas.NextCapacity(count), Zero);
      MemcpyStays(g.mem, g.start, s.at.value, unit * count);
      var m := Memcpy(g.mem, g.start, s.at.value, unit * count);
      assert m[..g.start][..|h.mem|] == m[..|h.mem|] && g.mem[..g.start][..|h.mem|] == h.mem;
    }
  }

  /** Storing changes nothing below the list. */
  lemma {:induction false} StoreFrame(h: Heap, s: Slots, cells: seq<Cell>, lo: nat)
    requires s.at.Some? && lo <= s.at.value && s.at.value + |cells| * (s.count + 1) <= |h.mem|
    ensures StoreLast(h, s, cells).heap.mem[..lo] == h.mem[..lo]
  {
    LastElement(|cells|, s.count);
  }

  /** One push, with other requests in between, changes nothing below `lo` if the list is above it. */
  ghost predicate PushFrame(h: Heap, s: Slots, p: Pushed, lo: nat, from: nat, to: nat) {
    && lo <= |h.mem| <= |p.heap.mem| && p.heap.mem[..lo] == h.mem[..lo] && SameLists(h, p.heap, from, to)
    && p.slots.at.Some? && lo <= p.slots.at.value
  }

  lemma Below(a: seq<Cell>, b: seq<Cell>, lo: nat)
    requires lo <= |a| <= |b| && b[..|a|] == a
    ensures b[..lo] == a[..lo]
  {
    assert b[..lo] == b[..|a|][..lo];
  }

  lemma SetFrame(h: Heap, r: Heap, lo: nat, hi: nat, node: nat, s: Slots, lo2: nat, hi2: nat)
    requires Frame(h, r, lo, hi) && lo2 <= lo && hi <= hi2 && lo2 <= node < hi2
    ensures Frame(h, SetList(r, node, s), lo2, hi2)
  {
  }

  lemma {:induction false} AsksEach(parts: seq<Tree>)
    ensures AsksAny(parts) <==> exists i :: 0 <= i < |parts| && Asks(parts[i])
    decreases |parts|
  {
    hide Asks;
    if parts != [] {
      AsksEach(parts[1..]);
      if i :| 0 <= i < |parts| && Asks(parts[i]) {
        if i > 0 { assert parts[1..][i - 1] == parts[i]; }
      }
      if i :| 0 <= i < |parts[1..]| && Asks(parts[1..][i]) { assert parts[i + 1] == parts[1..][i]; }
    }
  }

  lemma {:induction false} AsksSplit(parts: seq<Tree>, k: nat)
    requires k <= |parts|
    ensures AsksAny(parts) <==> AsksAny(parts[..k]) || AsksAny(parts[k..])
  {
    hide Asks, AsksAny;
    AsksEach(parts);
    AsksEach(parts[..k]);
    AsksEach(parts[k..]);
    assert forall i :: k <= i < |parts| ==> parts[i] == parts[k..][i - k];
    assert forall i :: 0 <= i < k ==> parts[i] == parts[..k][i];
    assert forall i :: 0 <= i < |parts| - k ==> parts[k..][i] == parts[k + i];
  }

  lemma {:induction false} AsksOne(t: Tree)
    ensures AsksAny([t]) == Asks(t) && !AsksAny([])
  {
    hide Asks;
    assert [t][1..] == [];
    assert AsksAny([t]) == (Asks(t) || AsksAny([]));
  }

  /** Nothing below the old end changes, and memory grows exactly when the tree asks for some. */
  lemma {:induction false} BuildFrame(t: Tree, base: nat, h: Heap)
    ensures Frame(h, Build(t, base, h), base, base + Size(t)) && Grew(h, Build(t, base, h), Asks(t))
    decreases Size(t), 0, 1
  {
    hide Build, Asks, Frame, Grew, Size;
    if t.NoTree? {
      NothingBuilt(t, base, h);
    } else if t.BlockTree? {
      BlockFrame(t, base, h);
    } else if t.CallTree? {
      CallFrame(t, base, h);
    } else if t.ArrayTree? {
      ArrayFrame(t, base, h);
    } else if t.FuncTree? {
      FuncFrame(t, base, h);
    } else {
      PlainFrame(t, base, h);
    }
  }

  lemma {:induction false} NothingBuilt(t: Tree, base: nat, h: Heap)
    requires t.NoTree?
    ensures Build(t, base, h) == h && Frame(h, h, base, base + Size(t)) && Grew(h, h, Asks(t))
  {
    assert h.mem[..|h.mem|] == h.mem;
  }

  lemma {:induction false} PlainFrame(t: Tree, base: nat, h: Heap)
    requires !t.NoTree? && !t.BlockTree? && !t.CallTree? && !t.ArrayTree? && !t.FuncTree?
    ensures Frame(h, Build(t, base, h), base, base + Size(t)) && Grew(h, Build(t, base, h), Asks(t))
    decreases Size(t), 0, 0
  {
    hide Parts, Earlier, Size, Sizes, List, AsksAny, BuildAll, PushArgs, PushStmts, Describe, Frame, Grew;
    SizeOfParts(t);
    var parts, k := Parts(t), Earlier(t);
    var at := base + Sizes(parts[..k]);
    var before := BuildAll(parts[..k], base, h);
    var r := BuildAll(parts[k..], at + 1, before);
    assert Build(t, base, h) == r;
    AsksSplit(parts, k);
    BuildAllFrame(parts[..k], base, h);
    BuildAllFrame(parts[k..], at + 1, before);
    FrameWiden(h, before, base, at, base, at + 1);
    FrameJoin(h, before, r, base, at + 1, base + Size(t));
    GrewJoin(h, before, r, AsksAny(parts[..k]), AsksAny(parts[k..]));
  }

  lemma {:induction false} CallFrame(t: Tree, base: nat, h: Heap)
    requires t.CallTree?
    ensures Frame(h, Build(t, base, h), base, base + Size(t)) && Grew(h, Build(t, base, h), Asks(t))
    decreases Size(t), 0, 0
  {
    hide Size, Sizes, List, AsksAny, BuildAll, PushArgs, PushStmts, Describe, Frame, Grew;
    SizeOfParts(t);
    var parts := Parts(t);
    assert Earlier(t) == 1 && parts[..1] == [t.callee] && parts[1..] == List(t.args);
    var at := base + Sizes(parts[..1]);
    var before := BuildAll(parts[..1], base, h);
    var p := PushArgs(parts[1..], at + 1, before);
    assert Build(t, base, h) == SetList(p.heap, at, p.slots);
    AsksSplit(parts, 1);
    BuildAllFrame(parts[..1], base, h);
    PushArgsFrame(parts[1..], at + 1, before);
    FrameWiden(h, before, base, at, base, at + 1);
    FrameJoin(h, before, p.heap, base, at + 1, base + Size(t));
    SetFrame(h, p.heap, base, base + Size(t), at, p.slots, base, base + Size(t));
    GrewJoin(h, before, p.heap, AsksAny(parts[..1]), parts[1..] != []);
    ListIsEmpty(t.args);
    SameMemory(h, p.heap, at, p.slots, Asks(t));
    NoneAsk();
  }

  lemma {:induction false} NoneAsk()
    ensures !AsksAny([])
  {
  }

  lemma {:induction false} ListIsEmpty(ts: Trees)
    ensures List(ts) == [] <==> ts.NoTrees?
  {
  }

  lemma SameMemory(h: Heap, r: Heap, node: nat, s: Slots, asks: bool)
    ensures Grew(h, SetList(r, node, s), asks) <==> Grew(h, r, asks)
  {
  }

  lemma {:induction false} ArrayFrame(t: Tree, base: nat, h: Heap)
    requires t.ArrayTree?
    ensures Frame(h, Build(t, base, h), base, base + Size(t)) && Grew(h, Build(t, base, h), Asks(t))
    decreases Size(t), 0, 0
  {
    hide Size, Sizes, List, Parts, Earlier, AsksAny, PushArgs, PushStmts, Describe, Frame, Grew;
    SizeOfParts(t);
    ArrayParts(t);
    var elems, length := List(t.elems), t.length;
    NoPartsYet(t, base, h);
    var p := PushArgs(elems, base + 1, h);
    var r := Build(length, base + 1 + Sizes(elems), p.heap);
    assert Build(t, base, h) == SetList(r, base, p.slots);
    assert Parts(t)[..|elems|] == elems && Parts(t)[|elems|..] == [length];
    AsksSplit(Parts(t), |elems|);
    AsksOne(length);
    PushArgsFrame(elems, base + 1, h);
    BuildFrame(length, base + 1 + Sizes(elems), p.heap);
    FrameJoin(h, p.heap, r, base + 1, base + 1 + Sizes(elems), base + Size(t));
    SetFrame(h, r, base + 1, base + Size(t), base, p.slots, base, base + Size(t));
    GrewJoin(h, p.heap, r, elems != [], Asks(length));
    ListIsEmpty(t.elems);
    SameMemory(h, r, base, p.slots, Asks(t));
    NoneAsk();
  }

  /** A node that comes before its parts. */
  lemma {:induction false} NoPartsYet(t: Tree, base: nat, h: Heap)
    requires Earlier(t) == 0
    ensures Sizes(Parts(t)[..0]) == 0 && BuildAll(Parts(t)[..0], base, h) == h && Parts(t)[0..] == Parts(t)
  {
    assert Parts(t)[..0] == [];
  }

  lemma {:induction false} BlockFrame(t: Tree, base: nat, h: Heap)
    requires t.BlockTree?
    ensures Frame(h, Build(t, base, h), base, base + Size(t)) && Grew(h, Build(t, base, h), Asks(t))
    decreases Size(t), 0, 0
  {
    hide Size, Sizes, List, AsksAny, PushArgs, PushStmts, Describe, Frame, Grew, BuildAll;
    SizeOfParts(t);
    NoPartsYet(t, base, h);
    var stmts, start := List(t.stmts), SetList(h, base, EMPTY);
    var p := PushStmts(stmts, base, base + 1, start);
    assert Build(t, base, h) == p.heap;
    PushStmtsFrame(stmts, base, base + 1, start);
    EmptyFrame(h, base);
    SetFrame(h, h, base, base, base, EMPTY, base, base + Size(t));
    FrameAgain(h, start, p.heap, base, base + Size(t));
    ListIsEmpty(t.stmts);
    StartedFrom(h, base, p.heap, stmts != []);
    NoneAsk();
  }

  lemma EmptyFrame(h: Heap, base: nat)
    ensures Frame(h, h, base, base)
  {
    assert h.mem[..|h.mem|] == h.mem;
  }

  lemma FrameAgain(a: Heap, b: Heap, c: Heap, lo: nat, hi: nat)
    requires Frame(a, b, lo, hi) && Frame(b, c, lo, hi)
    ensures Frame(a, c, lo, hi)
  {
    assert c.mem[..|b.mem|][..|a.mem|] == c.mem[..|a.mem|];
  }

  lemma StartedFrom(h: Heap, node: nat, r: Heap, asks: bool)
    ensures Grew(SetList(h, node, EMPTY), r, asks) <==> Grew(h, r, asks)
  {
  }

  lemma {:induction false} FuncFrame(t: Tree, base: nat, h: Heap)
    requires t.FuncTree?
    ensures Frame(h, Build(t, base, h), base, base + Size(t)) && Grew(h, Build(t, base, h), Asks(t))
    decreases Size(t), 0, 0
  {
    hide Size, Sizes, List, AsksAny, PushArgs, PushStmts, PushParams, Describe, Frame, Grew, BuildAll;
    SizeOfParts(t);
    FuncParts(t);
    NoPartsYet(t, base, h);
    var named := Build(t.ident, base + 1, h);
    var described := Describe(t.params, base, named);
    var r := Build(t.block, base + 1 + Size(t.ident), described);
    assert Build(t, base, h) == r;
    BuildFrame(t.ident, base + 1, h);
    DescribeFrame(t.params, base, named);
    BuildFrame(t.block, base + 1 + Size(t.ident), described);
    FrameWiden(h, named, base + 1, base + 1 + Size(t.ident), base, base + 1 + Size(t.ident));
    FrameWiden(named, described, base, base + 1, base, base + 1 + Size(t.ident));
    FrameAgain(h, named, described, base, base + 1 + Size(t.ident));
    FrameJoin(h, described, r, base, base + 1 + Size(t.ident), base + Size(t));
    GrewJoin(h, named, described, Asks(t.ident), true);
    GrewJoin(h, described, r, true, Asks(t.block));
  }

  lemma {:induction false} BuildAllFrame(parts: seq<Tree>, base: nat, h: Heap)
    ensures Frame(h, BuildAll(parts, base, h), base, base + Sizes(parts)) && Grew(h, BuildAll(parts, base, h), AsksAny(parts))
    decreases Sizes(parts), 1, |parts|
  {
    hide Build, Asks, Frame, Grew, Size;
    if parts == [] {
      EmptyFrame(h, base);
      NothingGrew(h);
    } else {
      var next, middle := base + Size(parts[0]), Build(parts[0], base, h);
      BuildFrame(parts[0], base, h);
      BuildAllFrame(parts[1..], next, middle);
      FrameJoin(h, middle, BuildAll(parts, base, h), base, next, base + Sizes(parts));
      GrewJoin(h, middle, BuildAll(parts, base, h), Asks(parts[0]), AsksAny(parts[1..]));
    }
  }

  lemma NothingGrew(h: Heap)
    ensures Grew(h, h, false)
  {
  }

  lemma {:induction false} PushArgsFrame(ts: seq<Tree>, base: nat, h: Heap)
    ensures var p := PushArgs(ts, base, h);
            && Frame(h, p.heap, base, base + Sizes(ts)) && Grew(h, p.heap, ts != [])
            && (ts != [] ==> PushFrame(h, EMPTY, p, |h.mem|, base, base + Sizes(ts)))
            && (ts == [] ==> p == Pushed(h, EMPTY))
    decreases Sizes(ts), 1, |ts|
  {
    hide Size, Sizes, PushArg, SameLists;
    if ts == [] {
      EmptyFrame(h, base);
      NoSizes();
    } else {
      var n := |ts| - 1;
      SizesLast(ts);
      var p := PushArgs(ts[..n], base, h);
      PushArgsFrame(ts[..n], base, h);
      PushArgFrame(ts[n], base + Sizes(ts[..n]), p.heap, p.slots, |h.mem|);
      var r := PushArg(ts[n], base + Sizes(ts[..n]), p.heap, p.slots);
      assert PushArgs(ts, base, h) == r;
      Below(h.mem, h.mem, |h.mem|);
      ListsJoin(h, p.heap, r.heap, base, base + Sizes(ts[..n]), base + Sizes(ts));
    }
  }

  lemma NoSizes()
    ensures Sizes([]) == 0
  {
  }

  lemma ListsJoin(a: Heap, b: Heap, c: Heap, lo: nat, mid: nat, hi: nat)
    requires SameLists(a, b, lo, mid) && SameLists(b, c, mid, hi) && lo <= mid <= hi
    ensures SameLists(a, c, lo, hi)
  {
  }

  /** One push, of which the first makes memory grow. */
  lemma {:induction false} PushArgFrame(t: Tree, base: nat, h: Heap, s: Slots, lo: nat)
    requires Within(h, s) && lo <= |h.mem| && (s.at.Some? ==> lo <= s.at.value)
    ensures var p := PushArg(t, base, h, s);
            PushFrame(h, s, p, lo, base, base + Size(t)) && (s == EMPTY ==> |h.mem| + 2 * REF_BYTES <= |p.heap.mem|)
    decreases Size(t), 0, 2
  {
    hide Build, Asks, Grew, Size, Reserve, StoreLast, RefCells, SameLists;
    var room := Reserve(h, s, REF_BYTES);
    var built := Build(t, base, room.heap);
    ReserveFrame(h, s, REF_BYTES);
    if s == EMPTY { ReserveFirst(h, REF_BYTES); }
    BuildFrame(t, base, room.heap);
    StoreFrame(built, room.slots, RefCells(Root(t, base)), lo);
    Below(h.mem, room.heap.mem, lo);
    Below(room.heap.mem, built.mem, lo);
    SameListsOf(h, room.heap, built, StoreLast(built, room.slots, RefCells(Root(t, base))).heap, base, base + Size(t));
  }

  lemma SameListsOf(a: Heap, b: Heap, c: Heap, d: Heap, lo: nat, hi: nat)
    requires a.lists == b.lists && SameLists(b, c, lo, hi) && c.lists == d.lists
    ensures SameLists(a, d, lo, hi)
  {
  }

  lemma {:induction false} PushStmtsFrame(ts: seq<Tree>, node: nat, base: nat, h: Heap)
    requires node < base
    ensures var p := PushStmts(ts, node, base, h);
            && Frame(h, p.heap, node, base + Sizes(ts)) && Grew(h, p.heap, ts != [])
            && (ts != [] ==> PushFrame(h, EMPTY, p, |h.mem|, node, base + Sizes(ts)))
            && (ts == [] ==> p == Pushed(h, EMPTY))
    decreases Sizes(ts), 1, |ts|
  {
    hide Size, Sizes, PushStmt, SameLists;
    if ts == [] {
      EmptyFrame(h, node);
      FrameWiden(h, h, node, node, node, base);
      NoSizes();
    } else {
      var n := |ts| - 1;
      SizesLast(ts);
      var p := PushStmts(ts[..n], node, base, h);
      PushStmtsFrame(ts[..n], node, base, h);
      PushStmtFrame(ts[n], node, base + Sizes(ts[..n]), p.heap, p.slots, |h.mem|);
      var r := PushStmt(ts[n], node, base + Sizes(ts[..n]), p.heap, p.slots);
      assert PushStmts(ts, node, base, h) == r;
      Below(h.mem, h.mem, |h.mem|);
      ListsAgain(h, p.heap, r.heap, node, base + Sizes(ts[..n]), base + Sizes(ts));
    }
  }

  lemma ListsAgain(a: Heap, b: Heap, c: Heap, lo: nat, mid: nat, hi: nat)
    requires SameLists(a, b, lo, mid) && SameLists(b, c, lo, hi) && mid <= hi
    ensures SameLists(a, c, lo, hi)
  {
  }

  lemma {:induction false} PushStmtFrame(t: Tree, node: nat, base: nat, h: Heap, s: Slots, lo: nat)
    requires Within(h, s) && lo <= |h.mem| && (s.at.Some? ==> lo <= s.at.value) && node < base
    ensures var p := PushStmt(t, node, base, h, s);
            PushFrame(h, s, p, lo, node, base + Size(t)) && (s == EMPTY ==> |h.mem| + 2 * REF_BYTES <= |p.heap.mem|)
    decreases Size(t), 0, 2
  {
    hide Build, Asks, Grew, Size, AddLast, RefCells, SameLists;
    var built := Build(t, base, h);
    BuildFrame(t, base, h);
    Below(h.mem, built.mem, lo);
    AddLastFrame(built, node, s, RefCells(Root(t, base)), lo);
    ListsWiden(h, built, PushStmt(t, node, base, h, s).heap, node, base, base + Size(t));
  }

  lemma ListsWiden(a: Heap, b: Heap, c: Heap, node: nat, base: nat, hi: nat)
    requires SameLists(a, b, base, hi) && SameLists(b, c, node, node + 1) && node < base <= hi
    ensures SameLists(a, c, node, hi)
  {
  }

  lemma {:induction false} AddLastFrame(h: Heap, node: nat, s: Slots, cells: seq<Cell>, lo: nat)
    requires Within(h, s) && |cells| >= ALIGN && lo <= |h.mem| && (s.at.Some? ==> lo <= s.at.value)
    ensures var p := AddLast(h, node, s, cells);
            && PushFrame(h, s, p, lo, node, node + 1)
            && (s == EMPTY ==> |h.mem| + 2 * |cells| <= |p.heap.mem|)
  {
    hide Reserve, StoreLast;
    var room := Reserve(h, s, |cells|);
    ReserveFrame(h, s, |cells|);
    if s == EMPTY { ReserveFirst(h, |cells|); }
    Below(h.mem, room.heap.mem, lo);
    StoreFrame(room.heap, room.slots, cells, lo);
  }

  lemma {:induction false} PushParamsFrame(ps: seq<Param>, h: Heap)
    ensures var p := PushParams(ps, h);
            && p.heap.mem[..|h.mem|] == h.mem && p.heap.lists == h.lists
            && (p.slots.at.Some? ==> |h.mem| <= p.slots.at.value)
    decreases |ps|
  {
    if ps == [] {
      Below(h.mem, h.mem, |h.mem|);
    } else {
      hide Reserve, StoreLast, ParamCells;
      var n := |ps| - 1;
      PushParamsFrame(ps[..n], h);
      var p := PushParams(ps[..n], h);
      var room := Reserve(p.heap, p.slots, PARAM);
      ReserveFrame(p.heap, p.slots, PARAM);
      Below(p.heap.mem, room.heap.mem, |h.mem|);
      StoreFrame(room.heap, room.slots, ParamCells(ps[n]), |h.mem|);
    }
  }

  lemma {:induction false} DescribeFrame(ps: seq<Param>, node: nat, h: Heap)
    ensures Frame(h, Describe(ps, node, h), node, node + 1) && Grew(h, Describe(ps, node, h), true)
  {
    hide PushParams;
    PushParamsFrame(ps, h);
    var p := PushParams(ps, h);
    var m := Take(p.heap.mem, FUNC_DATA, Zero).mem;
    assert m[..|p.heap.mem|] == p.heap.mem;
    assert m[..|p.heap.mem|][..|h.mem|] == m[..|h.mem|];
  }
}
