/** What the arena holds after a tree was built: every list, with the first two elements lost or not. */
module ListsInMemory {
  import opened Tokens
  import opened Syntax
  import opened Pool
  import Layout
  import opened Growth
  import opened Heaps
  import opened ListSteps
  import opened HeldTrees
  import opened HeapFrames

  // ----- The bytes of lists -----

  ghost function RefsCells(refs: seq<Ref>): (cells: seq<Cell>)
    ensures |cells| == REF_BYTES * |refs|
  {
    if refs == [] then [] else RefsCells(refs[..|refs| - 1]) + RefCells(refs[|refs| - 1])
  }

  ghost function ParamsCells(ps: seq<Param>): (cells: seq<Cell>)
    ensures |cells| == PARAM * |ps|
  {
    if ps == [] then [] else ParamsCells(ps[..|ps| - 1]) + ParamCells(ps[|ps| - 1])
  }

  /** A list of pointers, of which the first two may be lost. */
  function HeldRefs(refs: seq<Ref>, lost: bool): (held: seq<Ref>)
    requires lost ==> |refs| >= 2
    ensures |held| == |refs|
  {
    if lost then refs[0 := None][1 := None] else refs
  }

  lemma {:induction false} RefsCellsAppend(refs: seq<Ref>, r: Ref)
    ensures RefsCells(refs + [r]) == RefsCells(refs) + RefCells(r)
  {
    assert (refs + [r])[..|refs|] == refs;
  }

  lemma {:induction false} ParamsCellsAppend(ps: seq<Param>, p: Param)
    ensures ParamsCells(ps + [p]) == ParamsCells(ps) + ParamCells(p)
  {
    assert (ps + [p])[..|ps|] == ps;
  }

  /** Two null pointers are sixteen zero bytes. */
  lemma {:induction false} NullsAreZeros()
    ensures RefsCells([None, None]) == Zeros(2 * REF_BYTES, Zero)
  {
    var none: Ref := None;
    var empty: seq<Ref> := [];
    RefsCellsAppend(empty, none);
    RefsCellsAppend([none], none);
    assert empty + [none] == [none] && [none] + [none] == [none, none];
    assert RefsCells(empty) == [];
    assert RefsCells([None, None]) == Zeros(REF_BYTES, Zero) + Zeros(REF_BYTES, Zero);
  }

  lemma {:induction false} BlanksAreZeros()
    ensures ParamsCells([BLANK, BLANK]) == Zeros(2 * PARAM, Zero)
  {
    var empty: seq<Param> := [];
    ParamsCellsAppend(empty, BLANK);
    ParamsCellsAppend([BLANK], BLANK);
    assert empty + [BLANK] == [BLANK] && [BLANK] + [BLANK] == [BLANK, BLANK];
    assert ParamsCells(empty) == [];
    assert ParamsCells([BLANK, BLANK]) == Zeros(PARAM, Zero) + Zeros(PARAM, Zero);
  }

  // ----- Lists in memory -----

  /** The list of node `i` stands in memory from `lo` on, apart from `[x, y)`. */
  ghost predicate Stored(h: Heap, i: nat, count: nat, bytes: seq<Cell>, lo: nat, x: nat, y: nat) {
    && i in h.lists && h.lists[i].count == count
    && (count > 0 ==>
          && h.lists[i].at.Some?
          && var at := h.lists[i].at.value;
             && lo <= at && at + |bytes| <= |h.mem| && (at + |bytes| <= x || y <= at)
             && h.mem[at..at + |bytes|] == bytes)
  }

  /** The list that a node's children are, if it has one. */
  ghost function ListOf(n: Node): (refs: seq<Ref>) {
    if n.data.CallData? && n.children != [] then n.children[1..]
    else if n.data.ArrayData? && n.children != [] then n.children[..|n.children| - 1]
    else n.children
  }

  predicate HasRefs(d: Data) {
    d.CallData? || d.ArrayData? || d.BlockData?
  }

  ghost predicate NodeStored(n: Node, i: nat, h: Heap, lo: nat, x: nat, y: nat) {
    && (HasRefs(n.data) ==> Stored(h, i, |ListOf(n)|, RefsCells(ListOf(n)), lo, x, y))
    && (n.data.FuncData? ==> Stored(h, i, |n.data.params|, ParamsCells(n.data.params), lo, x, y))
  }

  /** All the lists of a slice of nodes stand in memory. */
  ghost predicate InMemory(slice: seq<Node>, base: nat, h: Heap, lo: nat, x: nat, y: nat) {
    forall i :: 0 <= i < |slice| ==> NodeStored(slice[i], base + i, h, lo, x, y)
  }

  /** What may move between two states without disturbing lists that stand apart from `[x, y)`. */
  ghost predicate Harmless(h: Heap, r: Heap, lo: nat, x: nat, y: nat, lo2: nat, x2: nat, y2: nat) {
    && lo2 <= lo && SameOutside(h.mem, r.mem, lo, x, y)
    && ((x2 == x && y2 == y) || |h.mem| <= x2 || y2 <= lo)
  }

  lemma {:induction false} StoredLater(h: Heap, r: Heap, i: nat, count: nat, bytes: seq<Cell>,
                                       lo: nat, x: nat, y: nat, lo2: nat, x2: nat, y2: nat)
    requires Stored(h, i, count, bytes, lo, x, y) && Harmless(h, r, lo, x, y, lo2, x2, y2)
    requires i in r.lists && r.lists[i] == h.lists[i]
    ensures Stored(r, i, count, bytes, lo2, x2, y2)
  {
    if count > 0 {
      var at := h.lists[i].at.value;
      assert r.mem[at..at + |bytes|] == h.mem[at..at + |bytes|];
    }
  }

  lemma {:induction false} InMemoryLater(slice: seq<Node>, base: nat, h: Heap, r: Heap,
                                         lo: nat, x: nat, y: nat, lo2: nat, x2: nat, y2: nat)
    requires InMemory(slice, base, h, lo, x, y) && Harmless(h, r, lo, x, y, lo2, x2, y2)
    requires forall i: nat :: base <= i < base + |slice| && i in h.lists ==> i in r.lists && r.lists[i] == h.lists[i]
    ensures InMemory(slice, base, r, lo2, x2, y2)
  {
    hide Stored, Harmless, RefsCells, ParamsCells, ListOf, HasRefs;
    forall i | 0 <= i < |slice| ensures NodeStored(slice[i], base + i, r, lo2, x2, y2) {
      var n := slice[i];
      assert NodeStored(n, base + i, h, lo, x, y);
      if HasRefs(n.data) {
        StoredList(h, base + i, |ListOf(n)|, RefsCells(ListOf(n)), lo, x, y);
        StoredLater(h, r, base + i, |ListOf(n)|, RefsCells(ListOf(n)), lo, x, y, lo2, x2, y2);
      }
      if n.data.FuncData? {
        StoredList(h, base + i, |n.data.params|, ParamsCells(n.data.params), lo, x, y);
        StoredLater(h, r, base + i, |n.data.params|, ParamsCells(n.data.params), lo, x, y, lo2, x2, y2);
      }
    }
  }

  lemma StoredList(h: Heap, i: nat, count: nat, bytes: seq<Cell>, lo: nat, x: nat, y: nat)
    ensures Stored(h, i, count, bytes, lo, x, y) ==> i in h.lists
  {
  }

  lemma {:induction false} InMemoryJoin(a: seq<Node>, b: seq<Node>, base: nat, h: Heap, lo: nat, x: nat, y: nat)
    ensures InMemory(a + b, base, h, lo, x, y) <==> InMemory(a, base, h, lo, x, y) && InMemory(b, base + |a|, h, lo, x, y)
  {
    hide NodeStored;
    if InMemory(a + b, base, h, lo, x, y) {
      forall i | 0 <= i < |a| ensures NodeStored(a[i], base + i, h, lo, x, y) {
        assert (a + b)[i] == a[i];
      }
      forall i | 0 <= i < |b| ensures NodeStored(b[i], base + |a| + i, h, lo, x, y) {
        assert (a + b)[|a| + i] == b[i];
      }
    }
  }

  // ----- What the parts of a tree hold, after more was built -----

  lemma {:induction false} AfterFrame(slice: seq<Node>, base: nat, h: Heap, r: Heap, lo: nat, from: nat, to: nat)
    requires InMemory(slice, base, h, lo, 0, 0) && Frame(h, r, from, to)
    requires base + |slice| <= from || to <= base
    ensures InMemory(slice, base, r, lo, 0, 0)
  {
    hide InMemory;
    PrefixIsSame(h.mem, r.mem, lo);
    InMemoryLater(slice, base, h, r, lo, 0, 0, lo, 0, 0);
  }

  lemma PrefixIsSame(a: seq<Cell>, b: seq<Cell>, lo: nat)
    requires |a| <= |b| && b[..|a|] == a
    ensures SameOutside(a, b, lo, 0, 0)
  {
    forall j | lo <= j < |a| ensures b[j] == a[j] { assert b[..|a|][j] == a[j]; }
  }

  lemma {:induction false} LowerStart(slice: seq<Node>, base: nat, h: Heap, lo: nat, lo2: nat)
    requires InMemory(slice, base, h, lo, 0, 0) && lo2 <= lo
    ensures InMemory(slice, base, h, lo2, 0, 0)
  {
    hide InMemory;
    InMemoryLater(slice, base, h, h, lo, 0, 0, lo2, 0, 0);
  }

  lemma {:induction false} HeldOne(t: Tree, base: nat)
    ensures HeldAll([t], base) == Held(t, base) && HeldAll([], base) == [] && Sizes([t]) == Size(t)
  {
    hide HeldTrees.Held, Size;
    assert [t][1..] == [];
  }

  lemma {:induction false} HeldAppend(a: seq<Tree>, b: seq<Tree>, base: nat)
    ensures HeldAll(a + b, base) == HeldAll(a, base) + HeldAll(b, base + Sizes(a)) && Sizes(a + b) == Sizes(a) + Sizes(b)
    decreases |a|
  {
    hide HeldTrees.Held, Size, HeldAll, Sizes;
    SizesAppend(a, b);
    if a == [] {
      assert a + b == b;
      HeldOne(NoTree, base);
      Layout.NoParts(base);
      assert [] + HeldAll(b, base) == HeldAll(b, base);
    } else {
      Layout.FirstSize(a);
      HeldAppend(a[1..], b, base + Size(a[0]));
      HeldFirst(a, base);
      HeldFirst(a + b, base);
      assert (a + b)[1..] == a[1..] + b && (a + b)[0] == a[0];
      Assoc(Held(a[0], base), HeldAll(a[1..], base + Size(a[0])), HeldAll(b, base + Sizes(a)));
    }
  }

  lemma HeldFirst(a: seq<Tree>, base: nat)
    requires a != []
    ensures HeldAll(a, base) == Held(a[0], base) + HeldAll(a[1..], base + Size(a[0]))
  {
    hide HeldTrees.Held, Size, Sizes;
  }

  lemma Assoc(x: seq<Node>, y: seq<Node>, z: seq<Node>)
    ensures x + (y + z) == x + y + z
  {
  }

  /** One more tree at the end. */
  lemma {:induction false} HeldLast(ts: seq<Tree>, base: nat)
    requires ts != []
    ensures var n := |ts| - 1;
            && HeldAll(ts, base) == HeldAll(ts[..n], base) + Held(ts[n], base + Sizes(ts[..n]))
            && Sizes(ts) == Sizes(ts[..n]) + Size(ts[n]) && |HeldAll(ts[..n], base)| == Sizes(ts[..n])
  {
    hide HeldTrees.Held, HeldAll, Size, Sizes;
    var n := |ts| - 1;
    assert ts == ts[..n] + [ts[n]];
    HeldAppend(ts[..n], [ts[n]], base);
    HeldOne(ts[n], base + Sizes(ts[..n]));
  }

  lemma {:induction false} RootsLast(ts: seq<Tree>, base: nat)
    requires ts != []
    ensures var n := |ts| - 1;
            Roots(ts, base) == Roots(ts[..n], base) + [Root(ts[n], base + Sizes(ts[..n]))]
  {
    hide Size, Root, Roots, Sizes, FlattenAll, Flatten;
    var n := |ts| - 1;
    assert ts == ts[..n] + [ts[n]];
    Layout.LayAppend(ts[..n], [ts[n]], base);
    Layout.LayOne(ts[n], base + Sizes(ts[..n]));
  }

  // ----- The lists of calls and array literals -----

  /** The bytes that a list's block has after all its pushes. */
  ghost function ListCap(unit: nat, count: nat, asked: bool): nat {
    if count == 1 || (count == 2 && !asked) then 2 * unit else 2 * (unit * count)
  }

  ghost predicate Separated(ts: seq<Tree>, i: nat) {
    i < |ts| && Asks(ts[i])
  }

  ghost function ArgRefs(ts: seq<Tree>, base: nat): (refs: seq<Ref>)
    ensures |refs| == |ts|
  {
    HeldRefs(Roots(ts, base), LosesArgs(ts))
  }

  /** The list of arguments `ts` in the heap of `p`, and the lists inside them apart from it. */
  ghost predicate ArgsHeld(ts: seq<Tree>, base: nat, lo: nat, p: Pushed)
    requires ts != []
  {
    var cap := ListCap(REF_BYTES, |ts|, Separated(ts, 0));
    && ListAt(p.heap.mem, lo, p.slots, REF_BYTES, RefsCells(ArgRefs(ts, base)), cap)
    && (|p.heap.mem| == p.slots.at.value + cap <==> !Asks(ts[|ts| - 1]))
    && InMemory(HeldAll(ts, base), base, p.heap, lo, p.slots.at.value, p.slots.at.value + cap)
  }

  /** An argument is built between the two halves of its push: its list afterwards, and what stays. */
  lemma {:induction false} ArgStored(t: Tree, base: nat, room: Pushed, place: nat, built: Heap, p: Pushed, lo: nat, bytes: seq<Cell>, cap: nat)
    requires RoomAt(room.heap.mem, lo, room.slots, REF_BYTES, bytes, cap)
    requires room.slots.at == Some(place) && |room.heap.mem| == place + cap
    requires (cap == 2 * REF_BYTES && room.slots.count <= 1) || |bytes| + 3 * REF_BYTES <= cap
    requires built == Build(t, base, room.heap) && place + REF_BYTES * (room.slots.count + 1) <= |room.heap.mem|
    requires p == StoreLast(built, room.slots, RefCells(Root(t, base)))
    ensures ListAt(p.heap.mem, lo, p.slots, REF_BYTES, bytes + RefCells(Root(t, base)), cap)
    ensures |p.heap.mem| == place + cap <==> !Asks(t)
    ensures SameOutside(room.heap.mem, p.heap.mem, 0, place, place + cap)
    ensures SameOutside(built.mem, p.heap.mem, 0, place, place + cap)
    ensures SameLists(room.heap, p.heap, base, base + Size(t))
  {
    hide Build, Asks, Size, RefCells, Listed, SameLists, RoomAt, ListAt, SameOutside, StoreLast, Root;
    var cells := RefCells(Root(t, base));
    BuildFrame(t, base, room.heap);
    RoomStays(room.heap.mem, built.mem, lo, room.slots, REF_BYTES, bytes, cap);
    StoreList(built, room.slots, lo, bytes, cap, cells);
    SameThrough(room.heap.mem, built.mem, p.heap.mem, place, place + cap);
    SameListsOf(room.heap, room.heap, built, p.heap, base, base + Size(t));
  }

  /** The lists inside an argument, which stand above its own list. */
  lemma {:induction false} ArgInMemory(t: Tree, base: nat, room: Pushed, built: Heap, p: Heap, lo: nat, place: nat, cap: nat)
    requires InMemory(Held(t, base), base, built, |room.heap.mem|, 0, 0)
    requires lo <= place && place + cap <= |room.heap.mem| && p.lists == built.lists
    requires SameOutside(built.mem, p.mem, 0, place, place + cap)
    ensures InMemory(Held(t, base), base, p, lo, place, place + cap)
  {
    hide HeldTrees.Held, InMemory, Size;
    InMemoryLater(Held(t, base), base, built, p, |room.heap.mem|, 0, 0, lo, place, place + cap);
  }

  lemma RoomIsAbove(mem: seq<Cell>, lo: nat, s: Slots, unit: nat, bytes: seq<Cell>, cap: nat)
    requires RoomAt(mem, lo, s, unit, bytes, cap)
    ensures s.at.Some? && lo <= s.at.value && s.at.value + cap <= |mem|
  {
  }

  lemma SameThrough(a: seq<Cell>, b: seq<Cell>, c: seq<Cell>, x: nat, y: nat)
    requires |a| <= |b| && b[..|a|] == a && SameOutside(b, c, 0, x, y)
    ensures SameOutside(a, c, 0, x, y)
  {
    forall j | 0 <= j < |a| && !(x <= j < y) ensures c[j] == a[j] { assert b[..|a|][j] == a[j]; }
  }

  /** The first argument. */
  lemma {:induction false} FirstArgHeld(t: Tree, base: nat, h: Heap)
    ensures ArgsHeld([t], base, |h.mem|, PushArg(t, base, h, EMPTY))
    decreases Size(t), 0, 3
  {
    hide Build, Asks, Size, HeldTrees.Held, RefCells, InMemory, SameLists, RoomAt, ListAt, Reserve, StoreLast, LosesArgs, SameOutside;
    var room := Reserve(h, EMPTY, REF_BYTES);
    var place, built, p := room.slots.at.value, Build(t, base, room.heap), PushArg(t, base, h, EMPTY);
    ReserveFirst(h, REF_BYTES);
    RoomIsAbove(room.heap.mem, |h.mem|, room.slots, REF_BYTES, [], 2 * REF_BYTES);
    ArgStored(t, base, room, place, built, p, |h.mem|, [], 2 * REF_BYTES);
    BuildStores(t, base, room.heap);
    ArgInMemory(t, base, room, built, p.heap, |h.mem|, place, 2 * REF_BYTES);
    HeldOne(t, base);
    FirstBytes(t, base);
  }

  lemma {:induction false} FirstBytes(t: Tree, base: nat)
    ensures [] + RefCells(Root(t, base)) == RefsCells(ArgRefs([t], base)) == RefsCells(StmtRefs([t], base))
  {
    hide Size, Root, RefCells, RefsCells;
    Layout.LayOne(t, base);
    var empty: seq<Ref> := [];
    RefsCellsAppend(empty, Root(t, base));
    NoRefsCells();
    assert empty + [Root(t, base)] == [Root(t, base)];
  }

  lemma NoRefsCells()
    ensures RefsCells([]) == []
  {
  }

  ghost function StmtRefs(ts: seq<Tree>, base: nat): (refs: seq<Ref>)
    ensures |refs| == |ts|
  {
    HeldRefs(Roots(ts, base), LosesStmts(ts))
  }

  /** The bytes after a push: the list as it was, or zeros in place of its two elements, and the new pointer. */
  lemma {:induction false} PushedBytes(refs: seq<Ref>, r: Ref, before: bool, loses: bool)
    requires before ==> |refs| >= 3
    requires loses ==> |refs| == 2
    ensures var bytes := RefsCells(HeldRefs(refs, before));
            (if loses then Zeros(|bytes|, Zero) else bytes) + RefCells(r) == RefsCells(HeldRefs(refs + [r], before || loses))
  {
    hide RefsCells, RefCells;
    var held := HeldRefs(refs, before);
    if loses {
      NullsAreZeros();
      RefsCellsAppend([None, None], r);
      assert HeldRefs(refs + [r], true) == [None, None] + [r];
      assert |RefsCells(held)| == 2 * REF_BYTES;
    } else {
      RefsCellsAppend(held, r);
      assert HeldRefs(refs + [r], before) == held + [r];
    }
  }

  /** A push in numbers: what comes next, for a list of `n` elements in a block of `ListCap`. */
  lemma {:induction false} CapStep(used: nat, at: nat, unit: nat, n: nat, asked: bool, still: bool)
    requires 0 < n && ALIGN <= unit && Listed(used, at, unit, unit * n, ListCap(unit, n, asked))
    requires used == at + ListCap(unit, n, asked) <==> still
    requires n == 1 ==> asked == !still
    ensures var cap := ListCap(unit, n, asked);
            var next := if InPlace(used, at, unit, unit * n) then cap else 2 * (unit * n + unit);
            && next == ListCap(unit, n + 1, asked)
            && ((next == 2 * unit && n <= 1) || unit * n + 3 * unit <= next)
            && (Loses(used, at, unit, unit * n, cap) <==> n == 2 && !asked && still)
  {
    LastElement(unit, n);
    ShortList(unit, n);
    LastElement(unit, 1);
  }

  lemma {:induction false} OutsideThrough(a: seq<Cell>, b: seq<Cell>, c: seq<Cell>, lo: nat, x: nat, y: nat, x2: nat, y2: nat)
    requires |a| <= |b| && b[..|a|] == a && SameOutside(b, c, 0, x2, y2)
    requires (x2 == x && y2 == y) || |a| <= x2
    ensures SameOutside(a, c, lo, x, y)
  {
    forall j | lo <= j < |a| && !(x <= j < y) ensures c[j] == a[j] { assert b[..|a|][j] == a[j]; }
  }

  /** One more argument after `ts`. */
  lemma {:induction false} NextArgHeld(ts: seq<Tree>, t: Tree, base: nat, lo: nat, p: Pushed)
    requires ts != [] && ArgsHeld(ts, base, lo, p) && Within(p.heap, p.slots) && p.slots.count == |ts|
    ensures ArgsHeld(ts + [t], base, lo, PushArg(t, base + Sizes(ts), p.heap, p.slots))
    decreases Size(t), 0, 3
  {
    hide Build, Asks, Size, Sizes, HeldTrees.Held, HeldAll, RefCells, RefsCells, InMemory, SameLists, RoomAt, Roots, Root;
    hide Reserve, StoreLast, LosesArgs, SameOutside, Listed, HeldRefs, ListCap, Loses;
    var n, at, from := |ts|, p.slots.at.value, base + Sizes(ts);
    var cap, bytes := ListCap(REF_BYTES, n, Separated(ts, 0)), RefsCells(ArgRefs(ts, base));
    ReserveList(p.heap, p.slots, lo, REF_BYTES, bytes, cap);
    var room := Reserve(p.heap, p.slots, REF_BYTES);
    var kept, next := KeptBytes(p.heap.mem, p.slots, REF_BYTES, bytes, cap), NextCap(p.heap.mem, p.slots, REF_BYTES, bytes, cap);
    CapStep(|p.heap.mem|, at, REF_BYTES, n, Separated(ts, 0), !Asks(ts[n - 1]));
    LosesNext(ts, t);
    RoomIsAbove(room.heap.mem, lo, room.slots, REF_BYTES, kept, next);
    var place, built, q := room.slots.at.value, Build(t, from, room.heap), PushArg(t, from, p.heap, p.slots);
    ArgStored(t, from, room, place, built, q, lo, kept, next);
    ArgBytes(ts, t, base, Loses(|p.heap.mem|, at, REF_BYTES, |bytes|, cap));
    BuildStores(t, from, room.heap);
    ArgInMemory(t, from, room, built, q.heap, lo, place, next);
    OutsideThrough(p.heap.mem, room.heap.mem, q.heap.mem, lo, at, at + cap, place, place + next);
    ListsKept(p.heap, room.heap, q.heap, base, from, from + Size(t));
    InMemoryLater(HeldAll(ts, base), base, p.heap, q.heap, lo, at, at + cap, lo, place, place + next);
    HeldSnoc(ts, t, base);
    InMemoryJoin(HeldAll(ts, base), Held(t, from), base, q.heap, lo, place, place + next);
  }

  lemma ListsKept(a: Heap, b: Heap, c: Heap, base: nat, from: nat, to: nat)
    requires a.lists == b.lists && SameLists(b, c, from, to) && base <= from
    ensures forall i: nat :: base <= i < from && i in a.lists ==> i in c.lists && c.lists[i] == a.lists[i]
  {
  }

  lemma {:induction false} HeldSnoc(ts: seq<Tree>, t: Tree, base: nat)
    ensures HeldAll(ts + [t], base) == HeldAll(ts, base) + Held(t, base + Sizes(ts)) && |HeldAll(ts, base)| == Sizes(ts)
    ensures Roots(ts + [t], base) == Roots(ts, base) + [Root(t, base + Sizes(ts))]
  {
    hide Size, Root, Roots, Sizes, HeldAll, HeldTrees.Held;
    assert (ts + [t])[..|ts|] == ts;
    HeldLast(ts + [t], base);
    RootsLast(ts + [t], base);
  }

  lemma LosesNext(ts: seq<Tree>, t: Tree)
    requires ts != []
    ensures Separated(ts + [t], 0) == Separated(ts, 0)
    ensures LosesArgs(ts + [t]) == (LosesArgs(ts) || (|ts| == 2 && !Asks(ts[0]) && !Asks(ts[1])))
  {
    hide Asks;
  }

  lemma {:induction false} ArgBytes(ts: seq<Tree>, t: Tree, base: nat, loses: bool)
    requires loses ==> |ts| == 2
    requires LosesArgs(ts + [t]) == (LosesArgs(ts) || loses)
    ensures var bytes := RefsCells(ArgRefs(ts, base));
            (if loses then Zeros(|bytes|, Zero) else bytes) + RefCells(Root(t, base + Sizes(ts))) == RefsCells(ArgRefs(ts + [t], base))
  {
    hide Asks, Size, Sizes, Root, Roots, RefsCells, RefCells, HeldRefs;
    HeldSnoc(ts, t, base);
    PushedBytes(Roots(ts, base), Root(t, base + Sizes(ts)), LosesArgs(ts), loses);
  }

  lemma {:induction false} ArgsStored(ts: seq<Tree>, base: nat, h: Heap)
    requires ts != []
    ensures ArgsHeld(ts, base, |h.mem|, PushArgs(ts, base, h))
    decreases Sizes(ts), 1, |ts|
  {
    hide ArgsHeld, PushArg, Size, Sizes;
    var n := |ts| - 1;
    SizesLast(ts);
    assert ts == ts[..n] + [ts[n]];
    if n == 0 {
      NoSizes();
      FirstArgHeld(ts[0], base, h);
      assert ts[..0] == [] && ts == [ts[0]];
      assert PushArgs([], base, h) == Pushed(h, EMPTY);
    } else {
      ArgsStored(ts[..n], base, h);
      NextArgHeld(ts[..n], ts[n], base, |h.mem|, PushArgs(ts[..n], base, h));
    }
  }

  // ----- The lists of blocks -----

  /** The list of the statements `ts` at the end of memory, and the lists inside them apart from it. */
  ghost predicate StmtsHeld(ts: seq<Tree>, node: nat, base: nat, lo: nat, p: Pushed)
    requires ts != []
  {
    var cap := ListCap(REF_BYTES, |ts|, Separated(ts, 1));
    && ListAt(p.heap.mem, lo, p.slots, REF_BYTES, RefsCells(StmtRefs(ts, base)), cap)
    && |p.heap.mem| == p.slots.at.value + cap && node in p.heap.lists && p.heap.lists[node] == p.slots
    && InMemory(HeldAll(ts, base), base, p.heap, lo, p.slots.at.value, p.slots.at.value + cap)
  }

  /** A pointer stored right after room was made for it. */
  lemma {:induction false} LastAdded(h: Heap, node: nat, s: Slots, lo: nat, bytes: seq<Cell>, cap: nat, cells: seq<Cell>)
    requires Within(h, s) && ALIGN <= |cells|
    requires var room := Reserve(h, s, |cells|);
             && RoomAt(room.heap.mem, lo, room.slots, |cells|, bytes, cap) && |room.heap.mem| == room.slots.at.value + cap
             && |h.mem| <= |room.heap.mem| && room.heap.mem[..|h.mem|] == h.mem
    requires (cap == 2 * |cells| && s.count <= 1) || |bytes| + 3 * |cells| <= cap
    ensures var p := AddLast(h, node, s, cells);
            && ListAt(p.heap.mem, lo, p.slots, |cells|, bytes + cells, cap) && |p.heap.mem| == p.slots.at.value + cap
            && p.slots.at == Reserve(h, s, |cells|).slots.at && p.heap.lists == h.lists[node := p.slots]
            && SameOutside(h.mem, p.heap.mem, 0, p.slots.at.value, p.slots.at.value + cap)
  {
    hide Reserve, RoomAt, ListAt, StoreLast, SameOutside;
    var room := Reserve(h, s, |cells|);
    RoomIsAbove(room.heap.mem, lo, room.slots, |cells|, bytes, cap);
    StoreList(room.heap, room.slots, lo, bytes, cap, cells);
    SameThrough(h.mem, room.heap.mem, StoreLast(room.heap, room.slots, cells).heap.mem, room.slots.at.value, room.slots.at.value + cap);
  }

  lemma RoomLower(mem: seq<Cell>, lo: nat, lo2: nat, s: Slots, unit: nat, bytes: seq<Cell>, cap: nat)
    requires RoomAt(mem, lo, s, unit, bytes, cap) && lo2 <= lo
    ensures RoomAt(mem, lo2, s, unit, bytes, cap)
  {
  }

  /** Where a list goes when one more element is stored: its old block is the last one, or its new one is above everything. */
  ghost predicate Above(h: Heap, lo: nat, place: nat, cap: nat) {
    place + cap <= lo || |h.mem| <= place
  }

  /** The lists inside a statement, which was built before there was room for it. */
  lemma {:induction false} StmtInMemory(t: Tree, base: nat, h: Heap, built: Heap, node: nat, p: Pushed, lo: nat, place: nat, cap: nat)
    requires InMemory(Held(t, base), base, built, |h.mem|, 0, 0) && node < base && lo <= |h.mem|
    requires SameOutside(built.mem, p.heap.mem, 0, place, place + cap) && p.heap.lists == built.lists[node := p.slots]
    requires Above(built, |h.mem|, place, cap)
    ensures InMemory(Held(t, base), base, p.heap, lo, place, place + cap)
  {
    hide HeldTrees.Held, InMemory, Size;
    InMemoryLater(Held(t, base), base, built, p.heap, |h.mem|, 0, 0, lo, place, place + cap);
  }

  lemma {:induction false} FirstStmtHeld(t: Tree, node: nat, base: nat, h: Heap)
    requires node < base
    ensures StmtsHeld([t], node, base, |h.mem|, PushStmt(t, node, base, h, EMPTY))
    decreases Size(t), 0, 3
  {
    hide Build, Asks, Size, HeldTrees.Held, RefCells, InMemory, RoomAt, ListAt, Reserve, AddLast, SameOutside, LosesStmts, Frame;
    var built, cells := Build(t, base, h), RefCells(Root(t, base));
    BuildFrame(t, base, h);
    ReserveFirst(built, REF_BYTES);
    var room := Reserve(built, EMPTY, REF_BYTES);
    RoomIsAbove(room.heap.mem, |built.mem|, room.slots, REF_BYTES, [], 2 * REF_BYTES);
    RoomLower(room.heap.mem, |built.mem|, |h.mem|, room.slots, REF_BYTES, [], 2 * REF_BYTES);
    LastAdded(built, node, EMPTY, |h.mem|, [], 2 * REF_BYTES, cells);
    BuildStores(t, base, h);
    var p := PushStmt(t, node, base, h, EMPTY);
    StmtInMemory(t, base, h, built, node, p, |h.mem|, p.slots.at.value, 2 * REF_BYTES);
    HeldOne(t, base);
    FirstBytes(t, base);
  }

  lemma {:induction false} LosesNextStmt(ts: seq<Tree>, t: Tree)
    requires ts != []
    ensures |ts| >= 2 ==> Separated(ts + [t], 1) == Separated(ts, 1)
    ensures |ts| == 1 ==> Separated(ts + [t], 1) == Asks(t)
    ensures LosesStmts(ts + [t]) == (LosesStmts(ts) || (|ts| == 2 && !Asks(ts[1]) && !Asks(t)))
  {
    hide Asks;
  }

  lemma {:induction false} StmtBytes(ts: seq<Tree>, t: Tree, base: nat, loses: bool)
    requires loses ==> |ts| == 2
    requires LosesStmts(ts + [t]) == (LosesStmts(ts) || loses)
    ensures var bytes := RefsCells(StmtRefs(ts, base));
            (if loses then Zeros(|bytes|, Zero) else bytes) + RefCells(Root(t, base + Sizes(ts))) == RefsCells(StmtRefs(ts + [t], base))
  {
    hide Asks, Size, Sizes, Root, Roots, RefsCells, RefCells, HeldRefs;
    HeldSnoc(ts, t, base);
    PushedBytes(Roots(ts, base), Root(t, base + Sizes(ts)), LosesStmts(ts), loses);
  }

  lemma OneIsNeverFull(unit: nat, asked: bool, other: bool)
    ensures ListCap(unit, 1, asked) == ListCap(unit, 1, other)
  {
  }

  /** A statement is built after the list: the list is as it was, and may no longer be at the end. */
  lemma {:induction false} ListAfterBuild(t: Tree, base: nat, h: Heap, lo: nat, s: Slots, bytes: seq<Cell>, cap: nat)
    requires ListAt(h.mem, lo, s, REF_BYTES, bytes, cap) && |h.mem| == s.at.value + cap
    ensures var built := Build(t, base, h);
            && ListAt(built.mem, lo, s, REF_BYTES, bytes, cap) && (|built.mem| == s.at.value + cap <==> !Asks(t))
            && |h.mem| <= |built.mem| && built.mem[..|h.mem|] == h.mem && SameLists(h, built, base, base + Size(t))
  {
    hide Build, Asks, Size, ListAt, SameLists;
    BuildFrame(t, base, h);
    ListStays(h.mem, Build(t, base, h).mem, lo, s, REF_BYTES, bytes, cap);
  }

  /** One more statement after `ts`: its list. */
  lemma {:induction false} NextStmtList(ts: seq<Tree>, t: Tree, node: nat, base: nat, lo: nat, p: Pushed, built: Heap)
    requires ts != [] && StmtsHeld(ts, node, base, lo, p) && Within(p.heap, p.slots) && p.slots.count == |ts|
    requires built == Build(t, base + Sizes(ts), p.heap)
    ensures var q := PushStmt(t, node, base + Sizes(ts), p.heap, p.slots);
            var cap, next := ListCap(REF_BYTES, |ts|, Separated(ts, 1)), ListCap(REF_BYTES, |ts| + 1, Separated(ts + [t], 1));
            && ListAt(q.heap.mem, lo, q.slots, REF_BYTES, RefsCells(StmtRefs(ts + [t], base)), next)
            && |q.heap.mem| == q.slots.at.value + next && q.heap.lists == built.lists[node := q.slots]
            && SameOutside(built.mem, q.heap.mem, 0, q.slots.at.value, q.slots.at.value + next)
            && p.slots.at.value + cap == |p.heap.mem|
            && ((q.slots.at == p.slots.at && next == cap) || |built.mem| <= q.slots.at.value)
  {
    hide Build, Asks, Size, Sizes, HeldTrees.Held, HeldAll, RefCells, RefsCells, InMemory, SameLists, RoomAt, Roots, Root;
    hide Reserve, AddLast, LosesStmts, SameOutside, Listed, HeldRefs, ListCap, Loses;
    var n, from, cells := |ts|, base + Sizes(ts), RefCells(Root(t, base + Sizes(ts)));
    var cap, bytes := ListCap(REF_BYTES, n, Separated(ts, 1)), RefsCells(StmtRefs(ts, base));
    ListAfterBuild(t, from, p.heap, lo, p.slots, bytes, cap);
    ReserveList(built, p.slots, lo, REF_BYTES, bytes, cap);
    var kept, next := KeptBytes(built.mem, p.slots, REF_BYTES, bytes, cap), NextCap(built.mem, p.slots, REF_BYTES, bytes, cap);
    LosesNextStmt(ts, t);
    OneIsNeverFull(REF_BYTES, Separated(ts, 1), Separated(ts + [t], 1));
    CapStep(|built.mem|, p.slots.at.value, REF_BYTES, n, Separated(ts + [t], 1), !Asks(t));
    LastAdded(built, node, p.slots, lo, kept, next, cells);
    StmtBytes(ts, t, base, Loses(|built.mem|, p.slots.at.value, REF_BYTES, |bytes|, cap));
  }

  /** One more statement after `ts`. */
  lemma {:induction false} NextStmtHeld(ts: seq<Tree>, t: Tree, node: nat, base: nat, lo: nat, p: Pushed)
    requires ts != [] && StmtsHeld(ts, node, base, lo, p) && Within(p.heap, p.slots) && p.slots.count == |ts| && node < base
    ensures StmtsHeld(ts + [t], node, base, lo, PushStmt(t, node, base + Sizes(ts), p.heap, p.slots))
    decreases Size(t), 0, 3
  {
    hide Build, Asks, Size, Sizes, HeldTrees.Held, HeldAll, RefCells, RefsCells, InMemory, Roots, Root, Frame;
    hide Reserve, PushStmt, LosesStmts, SameOutside, Listed, HeldRefs, ListCap, Loses;
    var n, at, from := |ts|, p.slots.at.value, base + Sizes(ts);
    var cap, next := ListCap(REF_BYTES, n, Separated(ts, 1)), ListCap(REF_BYTES, n + 1, Separated(ts + [t], 1));
    var built, q := Build(t, from, p.heap), PushStmt(t, node, from, p.heap, p.slots);
    NextStmtList(ts, t, node, base, lo, p, built);
    var place := q.slots.at.value;
    BuildFrame(t, from, p.heap);
    BuildStores(t, from, p.heap);
    StmtInMemory(t, from, p.heap, built, node, q, lo, place, next);
    FramePrefix(p.heap, built, from, from + Size(t));
    OutsideThrough(p.heap.mem, built.mem, q.heap.mem, lo, at, at + cap, place, place + next);
    StmtListsKept(p.heap, built, q, node, base, from, from + Size(t));
    InMemoryLater(HeldAll(ts, base), base, p.heap, q.heap, lo, at, at + cap, lo, place, place + next);
    HeldSnoc(ts, t, base);
    InMemoryJoin(HeldAll(ts, base), Held(t, from), base, q.heap, lo, place, place + next);
  }

  lemma FramePrefix(h: Heap, r: Heap, lo: nat, hi: nat)
    requires Frame(h, r, lo, hi)
    ensures |h.mem| <= |r.mem| && r.mem[..|h.mem|] == h.mem && SameLists(h, r, lo, hi)
  {
  }

  lemma StmtListsKept(a: Heap, b: Heap, c: Pushed, node: nat, base: nat, from: nat, to: nat)
    requires SameLists(a, b, from, to) && c.heap.lists == b.lists[node := c.slots] && node < base <= from
    ensures forall i: nat :: base <= i < from && i in a.lists ==> i in c.heap.lists && c.heap.lists[i] == a.lists[i]
    ensures node in c.heap.lists && c.heap.lists[node] == c.slots
  {
  }

  lemma {:induction false} StmtsStored(ts: seq<Tree>, node: nat, base: nat, h: Heap)
    requires ts != [] && node < base
    ensures StmtsHeld(ts, node, base, |h.mem|, PushStmts(ts, node, base, h))
    decreases Sizes(ts), 1, |ts|
  {
    hide StmtsHeld, PushStmt, Size, Sizes;
    var n := |ts| - 1;
    SizesLast(ts);
    assert ts == ts[..n] + [ts[n]];
    if n == 0 {
      NoSizes();
      FirstStmtHeld(ts[0], node, base, h);
      assert ts[..0] == [] && ts == [ts[0]];
      assert PushStmts([], node, base, h) == Pushed(h, EMPTY);
    } else {
      StmtsStored(ts[..n], node, base, h);
      NextStmtHeld(ts[..n], ts[n], node, base, |h.mem|, PushStmts(ts[..n], node, base, h));
    }
  }

  // ----- The lists of parameters -----

  ghost predicate ParamsHeld(ps: seq<Param>, lo: nat, p: Pushed)
    requires ps != []
  {
    var cap := ListCap(PARAM, |ps|, false);
    ListAt(p.heap.mem, lo, p.slots, PARAM, ParamsCells(Blanked(ps)), cap) && |p.heap.mem| == p.slots.at.value + cap
  }

  /** A parameter stored right after room was made for it. */
  lemma {:induction false} ParamAdded(q: Param, h: Heap, s: Slots, lo: nat, bytes: seq<Cell>, cap: nat)
    requires Within(h, s)
    requires var room := Reserve(h, s, PARAM);
             && RoomAt(room.heap.mem, lo, room.slots, PARAM, bytes, cap) && |room.heap.mem| == room.slots.at.value + cap
    requires (cap == 2 * PARAM && s.count <= 1) || |bytes| + 3 * PARAM <= cap
    ensures var p := PushParam(q, h, s);
            ListAt(p.heap.mem, lo, p.slots, PARAM, bytes + ParamCells(q), cap) && |p.heap.mem| == p.slots.at.value + cap
  {
    hide Reserve, RoomAt, ListAt, StoreLast, ParamCells;
    var room := Reserve(h, s, PARAM);
    RoomIsAbove(room.heap.mem, lo, room.slots, PARAM, bytes, cap);
    StoreList(room.heap, room.slots, lo, bytes, cap, ParamCells(q));
  }

  lemma {:induction false} FirstParamHeld(q: Param, h: Heap)
    ensures ParamsHeld([q], |h.mem|, PushParam(q, h, EMPTY))
  {
    hide ParamCells, ParamsCells, RoomAt, ListAt, Reserve, PushParam;
    ReserveFirst(h, PARAM);
    ParamAdded(q, h, EMPTY, |h.mem|, [], 2 * PARAM);
    var empty: seq<Param> := [];
    ParamsCellsAppend(empty, q);
    NoParamsCells();
    assert empty + [q] == [q];
  }

  lemma NoParamsCells()
    ensures ParamsCells([]) == []
  {
  }

  lemma {:induction false} ParamBytes(ps: seq<Param>, q: Param)
    requires ps != []
    ensures var bytes := ParamsCells(Blanked(ps));
            (if |ps| == 2 then Zeros(|bytes|, Zero) else bytes) + ParamCells(q) == ParamsCells(Blanked(ps + [q]))
  {
    hide ParamsCells, ParamCells;
    if |ps| == 2 {
      BlanksAreZeros();
      ParamsCellsAppend([BLANK, BLANK], q);
      assert Blanked(ps + [q]) == [BLANK, BLANK] + [q];
    } else {
      ParamsCellsAppend(Blanked(ps), q);
      assert Blanked(ps + [q]) == Blanked(ps) + [q];
    }
  }

  lemma {:induction false} NextParamHeld(ps: seq<Param>, q: Param, lo: nat, p: Pushed)
    requires ps != [] && ParamsHeld(ps, lo, p) && Within(p.heap, p.slots) && p.slots.count == |ps|
    ensures ParamsHeld(ps + [q], lo, PushParam(q, p.heap, p.slots))
  {
    hide ParamCells, ParamsCells, RoomAt, Reserve, PushParam, Blanked, Listed, ListCap, Loses;
    var cap, bytes := ListCap(PARAM, |ps|, false), ParamsCells(Blanked(ps));
    ReserveList(p.heap, p.slots, lo, PARAM, bytes, cap);
    CapStep(|p.heap.mem|, p.slots.at.value, PARAM, |ps|, false, true);
    ParamAdded(q, p.heap, p.slots, lo, KeptBytes(p.heap.mem, p.slots, PARAM, bytes, cap),
               NextCap(p.heap.mem, p.slots, PARAM, bytes, cap));
    ParamBytes(ps, q);
  }

  lemma {:induction false} ParamsStored(ps: seq<Param>, h: Heap)
    requires ps != []
    ensures ParamsHeld(ps, |h.mem|, PushParams(ps, h))
    decreases |ps|
  {
    hide ParamsHeld, PushParam;
    var n := |ps| - 1;
    assert ps == ps[..n] + [ps[n]];
    if n == 0 {
      FirstParamHeld(ps[0], h);
      assert ps[..0] == [] && ps == [ps[0]];
      assert PushParams([], h) == Pushed(h, EMPTY);
    } else {
      ParamsStored(ps[..n], h);
      NextParamHeld(ps[..n], ps[n], |h.mem|, PushParams(ps[..n], h));
    }
  }

  // ----- All the lists of a tree -----

  /** A list that stands at its place is stored. */
  lemma {:induction false} ListIsStored(h: Heap, node: nat, s: Slots, lo: nat, unit: nat, bytes: seq<Cell>, cap: nat)
    requires ListAt(h.mem, lo, s, unit, bytes, cap) && node in h.lists && h.lists[node] == s
    ensures Stored(h, node, s.count, bytes, lo, 0, 0)
  {
  }

  lemma {:induction false} NoHole(slice: seq<Node>, base: nat, h: Heap, lo: nat, x: nat, y: nat)
    requires InMemory(slice, base, h, lo, x, y)
    ensures InMemory(slice, base, h, lo, 0, 0)
  {
    hide NodeStored;
    forall i | 0 <= i < |slice| ensures NodeStored(slice[i], base + i, h, lo, 0, 0) {
      OpenHole(slice[i], base + i, h, lo, x, y);
    }
  }

  lemma {:induction false} OpenHole(n: Node, i: nat, h: Heap, lo: nat, x: nat, y: nat)
    requires NodeStored(n, i, h, lo, x, y)
    ensures NodeStored(n, i, h, lo, 0, 0)
  {
    hide RefsCells, ParamsCells, ListOf;
  }

  lemma {:induction false} BuildAllStores(parts: seq<Tree>, base: nat, h: Heap)
    ensures InMemory(HeldAll(parts, base), base, BuildAll(parts, base, h), |h.mem|, 0, 0)
    decreases Sizes(parts), 1, |parts|
  {
    hide Build, HeldTrees.Held, Size, InMemory, Frame;
    if parts == [] {
      NothingInMemory(base, h);
    } else {
      var next, middle := base + Size(parts[0]), Build(parts[0], base, h);
      var r := BuildAll(parts[1..], next, middle);
      BuildStores(parts[0], base, h);
      BuildAllStores(parts[1..], next, middle);
      BuildAllFrame(parts[1..], next, middle);
      AfterFrame(Held(parts[0], base), base, middle, r, |h.mem|, next, next + Sizes(parts[1..]));
      LowerStart(HeldAll(parts[1..], next), next, r, |middle.mem|, |h.mem|);
      InMemoryJoin(Held(parts[0], base), HeldAll(parts[1..], next), base, r, |h.mem|, 0, 0);
    }
  }

  lemma NothingInMemory(base: nat, h: Heap)
    ensures InMemory([], base, h, |h.mem|, 0, 0)
  {
  }

  /** The slice of a tree: the parts before the node, the node, the parts after it. */
  lemma {:induction false} WholeSlice(t: Tree, base: nat, r: Heap, lo: nat)
    requires !t.NoTree?
    requires var parts, k := Parts(t), Earlier(t);
             var at := base + Sizes(parts[..k]);
             && InMemory(HeldAll(parts[..k], base), base, r, lo, 0, 0)
             && NodeStored(HeldNode(t, base), at, r, lo, 0, 0)
             && InMemory(HeldAll(parts[k..], at + 1), at + 1, r, lo, 0, 0)
    ensures InMemory(Held(t, base), base, r, lo, 0, 0)
  {
    hide Parts, Earlier, HeldNode, HeldAll, HeldTrees.Held, Sizes, Size, InMemory;
    var parts, k := Parts(t), Earlier(t);
    var at := base + Sizes(parts[..k]);
    var a, node, b := HeldAll(parts[..k], base), HeldNode(t, base), HeldAll(parts[k..], at + 1);
    HeldParts(t, base);
    OneInMemory(node, at, r, lo);
    InMemoryJoin(a, [node], base, r, lo, 0, 0);
    InMemoryJoin(a + [node], b, base, r, lo, 0, 0);
  }

  lemma OneInMemory(node: Node, at: nat, r: Heap, lo: nat)
    requires NodeStored(node, at, r, lo, 0, 0)
    ensures InMemory([node], at, r, lo, 0, 0)
  {
    hide NodeStored;
  }

  // ----- The node of each shape -----

  lemma PlainNode(t: Tree, base: nat, at: nat, r: Heap, lo: nat)
    requires !t.NoTree? && !t.BlockTree? && !t.CallTree? && !t.ArrayTree? && !t.FuncTree?
    ensures NodeStored(HeldNode(t, base), at, r, lo, 0, 0)
  {
    hide Roots, Sizes, Parts, Earlier;
  }

  lemma {:induction false} CallNode(t: Tree, base: nat)
    requires t.CallTree?
    ensures HeldNode(t, base).data == CallData
    ensures ListOf(HeldNode(t, base)) == ArgRefs(List(t.args), base + Size(t.callee) + 1)
  {
    hide Roots, Sizes, Size, List, Root, LosesArgs;
    var args, at := List(t.args), base + Size(t.callee) + 1;
    CallChildren(t, base);
    var refs := Roots(args, at);
    assert NodeOf(t, base).children[1..] == refs;
    if LosesArgs(args) {
      LongList(t);
      assert NodeOf(t, base).children[1 := None][2 := None][1..] == refs[0 := None][1 := None];
    }
  }

  lemma {:induction false} CallChildren(t: Tree, base: nat)
    requires t.CallTree?
    ensures NodeOf(t, base) == Node(CallData, [Root(t.callee, base)] + Roots(List(t.args), base + Size(t.callee) + 1))
  {
    hide Roots, Sizes, Size, List, Root;
    assert Parts(t)[..1] == [t.callee] && Parts(t)[1..] == List(t.args);
    Layout.LayOne(t.callee, base);
  }

  lemma {:induction false} ArrayNode(t: Tree, base: nat)
    requires t.ArrayTree?
    ensures HeldNode(t, base).data == ArrayData && ListOf(HeldNode(t, base)) == ArgRefs(List(t.elems), base + 1)
  {
    hide Roots, Sizes, Size, List, Root, LosesArgs;
    var elems := List(t.elems);
    ArrayChildren(t, base);
    var refs, children := Roots(elems, base + 1), NodeOf(t, base).children;
    assert children[..|children| - 1] == refs;
    if LosesArgs(elems) {
      LongList(t);
      assert children[0 := None][1 := None][..|children| - 1] == refs[0 := None][1 := None];
    }
  }

  lemma {:induction false} ArrayChildren(t: Tree, base: nat)
    requires t.ArrayTree?
    ensures NodeOf(t, base)
         == Node(ArrayData, Roots(List(t.elems), base + 1) + [Root(t.length, base + 1 + Sizes(List(t.elems)))])
  {
    hide Roots, Sizes, Size, List, Root, Parts, Earlier;
    ArrayParts(t);
    NodeFirst(t, base);
    Layout.LayAppend(List(t.elems), [t.length], base + 1);
    Layout.LayOne(t.length, base + 1 + Sizes(List(t.elems)));
  }

  /** The node of a tree that comes before its parts. */
  lemma {:induction false} NodeFirst(t: Tree, base: nat)
    requires !t.NoTree? && Earlier(t) == 0
    ensures NodeOf(t, base) == Node(DataOf(t), Roots(Parts(t), base + 1))
  {
    hide Roots, Sizes, Parts, Earlier, DataOf;
    assert Parts(t)[..0] == [] && Parts(t)[0..] == Parts(t);
    Layout.NoParts(base);
    assert [] + Roots(Parts(t), base + 1) == Roots(Parts(t), base + 1);
  }

  lemma {:induction false} BlockNode(t: Tree, base: nat)
    requires t.BlockTree?
    ensures HeldNode(t, base).data == BlockData && ListOf(HeldNode(t, base)) == StmtRefs(List(t.stmts), base + 1)
  {
    hide Roots, Sizes, Size, List, Root, LosesStmts, NodeOf;
    NodeFirst(t, base);
    if LosesStmts(List(t.stmts)) { LongList(t); }
  }

  lemma FuncNode(t: Tree, base: nat)
    requires t.FuncTree?
    ensures HeldNode(t, base).data == FuncData(Blanked(t.params))
  {
    hide Roots, Sizes, Parts, Earlier;
  }

  // ----- Every tree -----

  /** After a tree was built, every list of it stands in memory, as `Held` says, above all earlier bytes. */
  lemma {:induction false} BuildStores(t: Tree, base: nat, h: Heap)
    ensures InMemory(Held(t, base), base, Build(t, base, h), |h.mem|, 0, 0)
    decreases Size(t), 0, 1
  {
    hide Build, HeldTrees.Held, InMemory, Size;
    if t.NoTree? {
      NullStores(t, base, h);
    } else if t.BlockTree? {
      BlockStores(t, base, h);
    } else if t.CallTree? {
      CallStores(t, base, h);
    } else if t.ArrayTree? {
      ArrayStores(t, base, h);
    } else if t.FuncTree? {
      FuncStores(t, base, h);
    } else {
      PlainStores(t, base, h);
    }
  }

  lemma {:induction false} NullStores(t: Tree, base: nat, h: Heap)
    requires t.NoTree?
    ensures InMemory(Held(t, base), base, Build(t, base, h), |h.mem|, 0, 0)
  {
  }

  lemma {:induction false} PlainStores(t: Tree, base: nat, h: Heap)
    requires !t.NoTree? && !t.BlockTree? && !t.CallTree? && !t.ArrayTree? && !t.FuncTree?
    ensures InMemory(Held(t, base), base, Build(t, base, h), |h.mem|, 0, 0)
    decreases Size(t), 0, 0
  {
    hide Parts, Earlier, Size, Sizes, BuildAll, HeldTrees.Held, HeldAll, HeldNode, InMemory, NodeStored, Frame;
    SizeOfParts(t);
    var parts, k := Parts(t), Earlier(t);
    var at := base + Sizes(parts[..k]);
    var before := BuildAll(parts[..k], base, h);
    var r := BuildAll(parts[k..], at + 1, before);
    assert Build(t, base, h) == r;
    BuildAllStores(parts[..k], base, h);
    BuildAllStores(parts[k..], at + 1, before);
    BuildAllFrame(parts[k..], at + 1, before);
    AfterFrame(HeldAll(parts[..k], base), base, before, r, |h.mem|, at + 1, at + 1 + Sizes(parts[k..]));
    LowerStart(HeldAll(parts[k..], at + 1), at + 1, r, |before.mem|, |h.mem|);
    PlainNode(t, base, at, r, |h.mem|);
    WholeSlice(t, base, r, |h.mem|);
  }

  /** The list of arguments `ts`, and the lists inside them, once the node at `node` has it. */
  lemma {:induction false} ArgsAreStored(ts: seq<Tree>, base: nat, h: Heap, node: nat)
    requires node < base
    ensures var p := PushArgs(ts, base, h);
            var r := SetList(p.heap, node, p.slots);
            && Stored(r, node, |ts|, RefsCells(ArgRefs(ts, base)), |h.mem|, 0, 0)
            && InMemory(HeldAll(ts, base), base, r, |h.mem|, 0, 0)
    decreases Sizes(ts), 2
  {
    hide Size, Sizes, HeldAll, InMemory, ArgRefs, PushArgs, RefsCells, ListAt;
    var p := PushArgs(ts, base, h);
    var r := SetList(p.heap, node, p.slots);
    if ts == [] {
      PushArgsFrame(ts, base, h);
      HeldOne(NoTree, base);
      NothingInMemory(base, r);
      NoneInMemory(base, r, |h.mem|);
    } else {
      ArgsStored(ts, base, h);
      var cap := ListCap(REF_BYTES, |ts|, Separated(ts, 0));
      ListIsStored(r, node, p.slots, |h.mem|, REF_BYTES, RefsCells(ArgRefs(ts, base)), cap);
      NoHole(HeldAll(ts, base), base, p.heap, |h.mem|, p.slots.at.value, p.slots.at.value + cap);
      EmptyFrame(p.heap, node);
      SetFrame(p.heap, p.heap, node, node, node, p.slots, node, node + 1);
      AfterFrame(HeldAll(ts, base), base, p.heap, r, |h.mem|, node, node + 1);
    }
  }

  lemma NoneInMemory(base: nat, h: Heap, lo: nat)
    ensures InMemory([], base, h, lo, 0, 0)
  {
  }

  lemma {:induction false} StoredLower(h: Heap, r: Heap, i: nat, count: nat, bytes: seq<Cell>, lo: nat, lo2: nat, from: nat, to: nat)
    requires Stored(h, i, count, bytes, lo, 0, 0) && lo2 <= lo && Frame(h, r, from, to) && !(from <= i < to)
    ensures Stored(r, i, count, bytes, lo2, 0, 0)
  {
    PrefixIsSame(h.mem, r.mem, lo);
    StoredLater(h, r, i, count, bytes, lo, 0, 0, lo2, 0, 0);
  }

  lemma {:induction false} NodeHasList(n: Node, at: nat, r: Heap, lo: nat, refs: seq<Ref>)
    requires HasRefs(n.data) && ListOf(n) == refs && Stored(r, at, |refs|, RefsCells(refs), lo, 0, 0)
    ensures NodeStored(n, at, r, lo, 0, 0)
  {
    hide Stored, RefsCells, ListOf;
  }

  lemma {:induction false} CallStores(t: Tree, base: nat, h: Heap)
    requires t.CallTree?
    ensures InMemory(Held(t, base), base, Build(t, base, h), |h.mem|, 0, 0)
    decreases Size(t), 0, 0
  {
    hide Size, Sizes, List, BuildAll, PushArgs, HeldTrees.Held, HeldAll, HeldNode, InMemory, NodeStored, Frame, ArgRefs, Stored;
    SizeOfParts(t);
    var parts, args := Parts(t), List(t.args);
    assert Earlier(t) == 1 && parts[..1] == [t.callee] && parts[1..] == args;
    HeldOne(t.callee, base);
    var at := base + Sizes(parts[..1]);
    var before := BuildAll(parts[..1], base, h);
    var p := PushArgs(parts[1..], at + 1, before);
    var r := SetList(p.heap, at, p.slots);
    assert Build(t, base, h) == r;
    BuildAllStores(parts[..1], base, h);
    PushArgsFrame(parts[1..], at + 1, before);
    SetFrame(before, p.heap, at + 1, at + 1 + Sizes(parts[1..]), at, p.slots, at, at + 1 + Sizes(parts[1..]));
    AfterFrame(HeldAll(parts[..1], base), base, before, r, |h.mem|, at, at + 1 + Sizes(parts[1..]));
    ArgsAreStored(args, at + 1, before, at);
    LowerStart(HeldAll(args, at + 1), at + 1, r, |before.mem|, |h.mem|);
    EmptyFrame(r, at + 1);
    StoredLower(r, r, at, |args|, RefsCells(ArgRefs(args, at + 1)), |before.mem|, |h.mem|, at + 1, at + 1);
    CallNode(t, base);
    NodeHasList(HeldNode(t, base), at, r, |h.mem|, ArgRefs(args, at + 1));
    WholeSlice(t, base, r, |h.mem|);
  }

  lemma {:induction false} ArrayStores(t: Tree, base: nat, h: Heap)
    requires t.ArrayTree?
    ensures InMemory(Held(t, base), base, Build(t, base, h), |h.mem|, 0, 0)
    decreases Size(t), 0, 0
  {
    hide Size, Sizes, List, Parts, Earlier, BuildAll, PushArgs, HeldTrees.Held, HeldAll, HeldNode, InMemory, NodeStored, Frame, ArgRefs, Stored;
    SizeOfParts(t);
    ArrayParts(t);
    NoPartsYet(t, base, h);
    var elems, length, from := List(t.elems), t.length, base + 1 + Sizes(List(t.elems));
    var p := PushArgs(elems, base + 1, h);
    var built := Build(length, from, p.heap);
    var r, middle := SetList(built, base, p.slots), SetList(p.heap, base, p.slots);
    assert Build(t, base, h) == r;
    ArgsAreStored(elems, base + 1, h, base);
    BuildFrame(length, from, p.heap);
    SetBoth(p.heap, built, base, p.slots, from, from + Size(length));
    AfterFrame(HeldAll(elems, base + 1), base + 1, middle, r, |h.mem|, from, from + Size(length));
    StoredLower(middle, r, base, |elems|, RefsCells(ArgRefs(elems, base + 1)), |h.mem|, |h.mem|, from, from + Size(length));
    BuildStores(length, from, p.heap);
    EmptyFrame(built, base);
    SetFrame(built, built, base, base, base, p.slots, base, base + 1);
    AfterFrame(Held(length, from), from, built, r, |p.heap.mem|, base, base + 1);
    LowerStart(Held(length, from), from, r, |p.heap.mem|, |h.mem|);
    HeldAppend(elems, [length], base + 1);
    HeldOne(length, from);
    HeldOne(length, base);
    InMemoryJoin(HeldAll(elems, base + 1), Held(length, from), base + 1, r, |h.mem|, 0, 0);
    ArrayNode(t, base);
    NodeHasList(HeldNode(t, base), base, r, |h.mem|, ArgRefs(elems, base + 1));
    FirstSlice(t, base, r, |h.mem|);
  }

  /** Setting a list before or after more is built makes no difference. */
  lemma SetBoth(a: Heap, b: Heap, node: nat, s: Slots, from: nat, to: nat)
    requires Frame(a, b, from, to) && node < from
    ensures Frame(SetList(a, node, s), SetList(b, node, s), from, to)
  {
  }

  /** The slice of a tree whose node comes before its parts. */
  lemma {:induction false} FirstSlice(t: Tree, base: nat, r: Heap, lo: nat)
    requires !t.NoTree? && Earlier(t) == 0 && NodeStored(HeldNode(t, base), base, r, lo, 0, 0)
    requires InMemory(HeldAll(Parts(t), base + 1), base + 1, r, lo, 0, 0)
    ensures InMemory(Held(t, base), base, r, lo, 0, 0)
  {
    hide Parts, Earlier, HeldNode, HeldAll, HeldTrees.Held, Sizes, InMemory, NodeStored;
    assert Parts(t)[..0] == [] && Parts(t)[0..] == Parts(t);
    NoSizes();
    HeldOne(NoTree, base);
    NoneInMemory(base, r, lo);
    WholeSlice(t, base, r, lo);
  }

  lemma {:induction false} BlockStores(t: Tree, base: nat, h: Heap)
    requires t.BlockTree?
    ensures InMemory(Held(t, base), base, Build(t, base, h), |h.mem|, 0, 0)
    decreases Size(t), 0, 0
  {
    hide Size, Sizes, List, BuildAll, PushStmts, HeldTrees.Held, HeldAll, HeldNode, InMemory, NodeStored, StmtRefs, Stored, ListAt, RefsCells;
    SizeOfParts(t);
    NoPartsYet(t, base, h);
    var stmts, start := List(t.stmts), SetList(h, base, EMPTY);
    var p := PushStmts(stmts, base, base + 1, start);
    assert Build(t, base, h) == p.heap;
    if stmts == [] {
      PushStmtsFrame(stmts, base, base + 1, start);
      HeldOne(NoTree, base + 1);
      NoneInMemory(base + 1, p.heap, |h.mem|);
      EmptyIsStored(p.heap, base, RefsCells(StmtRefs(stmts, base + 1)), |h.mem|);
    } else {
      StmtsStored(stmts, base, base + 1, start);
      var cap := ListCap(REF_BYTES, |stmts|, Separated(stmts, 1));
      ListIsStored(p.heap, base, p.slots, |h.mem|, REF_BYTES, RefsCells(StmtRefs(stmts, base + 1)), cap);
      NoHole(HeldAll(stmts, base + 1), base + 1, p.heap, |h.mem|, p.slots.at.value, p.slots.at.value + cap);
    }
    BlockNode(t, base);
    NodeHasList(HeldNode(t, base), base, p.heap, |h.mem|, StmtRefs(stmts, base + 1));
    FirstSlice(t, base, p.heap, |h.mem|);
  }

  lemma EmptyIsStored(h: Heap, node: nat, bytes: seq<Cell>, lo: nat)
    requires node in h.lists && h.lists[node] == EMPTY
    ensures Stored(h, node, 0, bytes, lo, 0, 0)
  {
  }

  /** The parameters of a function, once its record is there. */
  lemma {:induction false} ParamsAreStored(ps: seq<Param>, node: nat, h: Heap)
    ensures Stored(Describe(ps, node, h), node, |ps|, ParamsCells(Blanked(ps)), |h.mem|, 0, 0)
  {
    hide PushParams, ParamsCells, ListAt, Stored;
    var p := PushParams(ps, h);
    var r := Describe(ps, node, h);
    if ps == [] {
      NoParamsPushed(h);
      EmptyIsStored(r, node, ParamsCells(Blanked(ps)), |h.mem|);
    } else {
      ParamsStored(ps, h);
      var listed := SetList(p.heap, node, p.slots);
      ListIsStored(listed, node, p.slots, |h.mem|, PARAM, ParamsCells(Blanked(ps)), ListCap(PARAM, |ps|, false));
      var m := Take(p.heap.mem, FUNC_DATA, Zero).mem;
      assert m[..|p.heap.mem|] == p.heap.mem;
      StoredLower(listed, r, node, |ps|, ParamsCells(Blanked(ps)), |h.mem|, |h.mem|, node + 1, node + 1);
    }
  }

  lemma {:induction false} FuncStores(t: Tree, base: nat, h: Heap)
    requires t.FuncTree?
    ensures InMemory(Held(t, base), base, Build(t, base, h), |h.mem|, 0, 0)
    decreases Size(t), 0, 0
  {
    hide Size, Sizes, Parts, Earlier, BuildAll, Describe, HeldTrees.Held, HeldAll, HeldNode, InMemory, Frame, Stored, ParamsCells;
    SizeOfParts(t);
    FuncParts(t);
    NoPartsYet(t, base, h);
    var blockAt := base + 1 + Size(t.ident);
    var named := Build(t.ident, base + 1, h);
    var described := Describe(t.params, base, named);
    var r := Build(t.block, blockAt, described);
    assert Build(t, base, h) == r;
    BuildStores(t.ident, base + 1, h);
    DescribeFrame(t.params, base, named);
    AfterFrame(Held(t.ident, base + 1), base + 1, named, described, |h.mem|, base, base + 1);
    BuildFrame(t.block, blockAt, described);
    AfterFrame(Held(t.ident, base + 1), base + 1, described, r, |h.mem|, blockAt, blockAt + Size(t.block));
    BuildStores(t.block, blockAt, described);
    LowerStart(Held(t.block, blockAt), blockAt, r, |described.mem|, |h.mem|);
    ParamsAreStored(t.params, base, named);
    StoredLower(described, r, base, |t.params|, ParamsCells(Blanked(t.params)), |named.mem|, |h.mem|, blockAt, blockAt + Size(t.block));
    TwoHeld(t.ident, t.block, base + 1);
    InMemoryJoin(Held(t.ident, base + 1), Held(t.block, blockAt), base + 1, r, |h.mem|, 0, 0);
    FuncNode(t, base);
    FuncHasList(HeldNode(t, base), base, r, |h.mem|, Blanked(t.params));
    FirstSlice(t, base, r, |h.mem|);
  }

  lemma {:induction false} TwoHeld(a: Tree, b: Tree, base: nat)
    ensures HeldAll([a, b], base) == Held(a, base) + Held(b, base + Size(a))
  {
    hide HeldTrees.Held, Size, HeldAll, Sizes;
    assert [a, b] == [a] + [b];
    HeldAppend([a], [b], base);
    HeldOne(a, base);
    HeldOne(b, base + Size(a));
  }

  lemma {:induction false} FuncHasList(n: Node, at: nat, r: Heap, lo: nat, ps: seq<Param>)
    requires n.data == FuncData(ps) && Stored(r, at, |ps|, ParamsCells(ps), lo, 0, 0)
    ensures NodeStored(n, at, r, lo, 0, 0)
  {
    hide Stored, ParamsCells;
  }
}
