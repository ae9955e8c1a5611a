/** The finished pool as its lists are read from memory, and exactly when that is the tree of the program. */
module HeapTheorems {
  import Bits
  import opened Tokens
  import opened Syntax
  import opened Pool
  import opened PoolTheorems
  import opened Growth
  import opened Heaps
  import opened HeldTrees
  import opened ListSteps
  import opened ListsInMemory

  // ----- Reading lists from memory -----

  function ReadRef(cells: seq<Cell>): Ref
    requires |cells| == REF_BYTES
  {
    if cells[0].RefByte? then Some(cells[0].node) else None
  }

  function ReadParam(cells: seq<Cell>): Param
    requires |cells| == PARAM
  {
    if cells[0].ParamByte? then cells[0].param else BLANK
  }

  /** The list of node `i` lies inside memory. */
  predicate Listing(h: Heap, i: nat, unit: nat) {
    i in h.lists && h.lists[i].at.Some? && h.lists[i].at.value + unit * h.lists[i].count <= |h.mem|
  }

  function Element(h: Heap, i: nat, unit: nat, k: nat): (cells: seq<Cell>)
    requires Listing(h, i, unit) && k < h.lists[i].count
    ensures |cells| == unit
  {
    ElementInside(unit, k, h.lists[i].count);
    h.mem[h.lists[i].at.value + unit * k..h.lists[i].at.value + unit * k + unit]
  }

  lemma {:induction false} ElementInside(unit: nat, k: nat, count: nat)
    requires k < count
    ensures unit * k + unit <= unit * count
  {
    Bits.MultiplesApart(unit, k, count);
  }

  function RefsRead(h: Heap, i: nat): seq<Ref> {
    if Listing(h, i, REF_BYTES)
    then seq(h.lists[i].count, k requires 0 <= k < h.lists[i].count => ReadRef(Element(h, i, REF_BYTES, k)))
    else []
  }

  function ParamsRead(h: Heap, i: nat): seq<Param> {
    if Listing(h, i, PARAM)
    then seq(h.lists[i].count, k requires 0 <= k < h.lists[i].count => ReadParam(Element(h, i, PARAM, k)))
    else []
  }

  /** A node of the pool with its list as it is read from memory. */
  function NodeRead(n: Node, i: nat, h: Heap): Node {
    if n.data.CallData? && n.children != [] then n.(children := [n.children[0]] + RefsRead(h, i))
    else if n.data.ArrayData? && n.children != [] then n.(children := RefsRead(h, i) + [n.children[|n.children| - 1]])
    else if n.data.BlockData? then n.(children := RefsRead(h, i))
    else if n.data.FuncData? then n.(data := FuncData(ParamsRead(h, i)))
    else n
  }

  /** The pool as whoever follows its pointers sees it. */
  function PoolRead(nodes: seq<Node>, h: Heap): (r: seq<Node>)
    ensures |r| == |nodes|
  {
    seq(|nodes|, i requires 0 <= i < |nodes| => NodeRead(nodes[i], i, h))
  }

  lemma {:induction false} SliceOfSlice(m: seq<Cell>, at: nat, len: nat, x: nat, y: nat)
    requires at + len <= |m| && x <= y <= len
    ensures m[at..at + len][x..y] == m[at + x..at + y]
  {
    var s := m[at..at + len];
    forall k | 0 <= k < y - x ensures s[x..y][k] == m[at + x..at + y][k] {
      assert s[x + k] == m[at + x + k];
    }
  }

  lemma FirstOf(a: seq<Cell>, b: seq<Cell>, x: nat, y: nat)
    requires a <= b && x <= y <= |a|
    ensures b[x..y] == a[x..y]
  {
  }

  lemma {:induction false} RefsCellsAt(refs: seq<Ref>, k: nat)
    requires k < |refs|
    ensures RefsCells(refs)[REF_BYTES * k..REF_BYTES * k + REF_BYTES] == RefCells(refs[k])
    decreases |refs|
  {
    hide RefCells;
    var n := |refs| - 1;
    if k < n {
      RefsCellsAt(refs[..n], k);
      ElementInside(REF_BYTES, k, n);
      FirstOf(RefsCells(refs[..n]), RefsCells(refs), REF_BYTES * k, REF_BYTES * k + REF_BYTES);
    }
  }

  lemma {:induction false} ParamsCellsAt(ps: seq<Param>, k: nat)
    requires k < |ps|
    ensures ParamsCells(ps)[PARAM * k..PARAM * k + PARAM] == ParamCells(ps[k])
    decreases |ps|
  {
    hide ParamCells;
    var n := |ps| - 1;
    if k < n {
      ParamsCellsAt(ps[..n], k);
      ElementInside(PARAM, k, n);
      FirstOf(ParamsCells(ps[..n]), ParamsCells(ps), PARAM * k, PARAM * k + PARAM);
    }
  }

  lemma RefReadsBack(r: Ref)
    ensures ReadRef(RefCells(r)) == r
  {
  }

  lemma ParamReadsBack(p: Param)
    ensures ReadParam(ParamCells(p)) == p
  {
  }

  lemma {:induction false} StoredRefsRead(h: Heap, i: nat, refs: seq<Ref>, lo: nat)
    requires Stored(h, i, |refs|, RefsCells(refs), lo, 0, 0)
    ensures RefsRead(h, i) == refs
  {
    hide RefsCells, RefCells, ReadRef;
    if refs != [] {
      var at, bytes := h.lists[i].at.value, RefsCells(refs);
      forall k | 0 <= k < |refs| ensures RefsRead(h, i)[k] == refs[k] {
        RefsCellsAt(refs, k);
        RefReadsBack(refs[k]);
        ElementInside(REF_BYTES, k, |refs|);
        SliceOfSlice(h.mem, at, |bytes|, REF_BYTES * k, REF_BYTES * k + REF_BYTES);
      }
    }
  }

  lemma {:induction false} StoredParamsRead(h: Heap, i: nat, ps: seq<Param>, lo: nat)
    requires Stored(h, i, |ps|, ParamsCells(ps), lo, 0, 0)
    ensures ParamsRead(h, i) == ps
  {
    hide ParamsCells, ParamCells, ReadParam;
    if ps != [] {
      var at, bytes := h.lists[i].at.value, ParamsCells(ps);
      forall k | 0 <= k < |ps| ensures ParamsRead(h, i)[k] == ps[k] {
        ParamsCellsAt(ps, k);
        ParamReadsBack(ps[k]);
        ElementInside(PARAM, k, |ps|);
        SliceOfSlice(h.mem, at, |bytes|, PARAM * k, PARAM * k + PARAM);
      }
    }
  }

  // ----- The pool that was written and the pool that is held differ in lists only -----

  ghost predicate SameButLists(n: Node, held: Node) {
    && |n.children| == |held.children|
    && (n.data == held.data || (n.data.FuncData? && held.data.FuncData?))
    && (n.data.FuncData? || !HasRefs(n.data) ==> n.children == held.children)
    && ((n.data.CallData? || n.data.ArrayData?) ==>
          n.children != [] && (n.data.CallData? ==> n.children[0] == held.children[0])
          && (n.data.ArrayData? ==> n.children[|n.children| - 1] == held.children[|n.children| - 1]))
  }

  ghost predicate AllSameButLists(a: seq<Node>, b: seq<Node>) {
    |a| == |b| && forall i :: 0 <= i < |a| ==> SameButLists(a[i], b[i])
  }

  lemma {:induction false} HeldDiffersInLists(t: Tree, base: nat)
    requires !t.NoTree?
    ensures SameButLists(NodeOf(t, base), HeldNode(t, base))
  {
    hide Parts, Earlier, Roots, Sizes, Asks;
    if LosesList(t) { LongList(t); }
    ListShape(t);
  }

  lemma {:induction false} ListShape(t: Tree)
    requires !t.NoTree?
    ensures t.CallTree? || t.ArrayTree? ==> |Parts(t)| > 0
    ensures t.ArrayTree? && LosesList(t) ==> |Parts(t)| > 3
  {
    hide Asks;
  }

  lemma {:induction false} SameSlices(t: Tree, base: nat)
    ensures AllSameButLists(Flatten(t, base), Held(t, base))
    decreases Size(t), 0, 0
  {
    hide HeldAll, FlattenAll, HeldNode, NodeOf, Parts, Earlier, Size, Sizes, SameButLists;
    if !t.NoTree? {
      SizeOfParts(t);
      var parts, k := Parts(t), Earlier(t);
      var at := base + Sizes(parts[..k]);
      SameAllSlices(parts[..k], base);
      SameAllSlices(parts[k..], at + 1);
      HeldDiffersInLists(t, base);
    }
  }

  lemma {:induction false} SameAllSlices(parts: seq<Tree>, base: nat)
    ensures AllSameButLists(FlattenAll(parts, base), HeldAll(parts, base))
    decreases Sizes(parts), 1, |parts|
  {
    hide HeldTrees.Held, Flatten, Size, SameButLists;
    if parts != [] {
      SameSlices(parts[0], base);
      SameAllSlices(parts[1..], base + Size(parts[0]));
    }
  }

  lemma {:induction false} NodeIsRead(n: Node, held: Node, i: nat, h: Heap, lo: nat)
    requires SameButLists(n, held) && NodeStored(held, i, h, lo, 0, 0)
    ensures NodeRead(n, i, h) == held
  {
    hide RefsCells, ParamsCells, RefsRead, ParamsRead, Stored;
    if HasRefs(held.data) {
      StoredRefsRead(h, i, ListOf(held), lo);
      if n.data.CallData? {
        assert held.children == [held.children[0]] + held.children[1..];
      } else if n.data.ArrayData? {
        assert held.children == held.children[..|held.children| - 1] + [held.children[|held.children| - 1]];
      }
    } else if held.data.FuncData? {
      StoredParamsRead(h, i, held.data.params, lo);
    }
  }

  /** What is read through the pool that was written is exactly the tree's slice with its lists as `Held` says. */
  lemma {:induction false} PoolIsHeld(t: Tree, h: Heap)
    ensures PoolRead(Flatten(t, 0), Build(t, 0, h)) == Held(t, 0)
  {
    hide Flatten, HeldTrees.Held, Build, NodeRead, NodeStored, SameButLists;
    var r := Build(t, 0, h);
    BuildStores(t, 0, h);
    SameSlices(t, 0);
    forall i | 0 <= i < |Flatten(t, 0)| ensures NodeRead(Flatten(t, 0)[i], i, r) == Held(t, 0)[i] {
      NodeIsRead(Flatten(t, 0)[i], Held(t, 0)[i], i, r, |h.mem|);
    }
  }

  /**
   The pool of a program, read through memory, is the program's tree, and is the pool that was written,
   exactly when every list has at most two elements, or something else was requested between its first
   pushes, or its first two elements are null.
   */
  lemma {:induction false} ProgramInMemory(t: Tree, h: Heap)
    requires t.BlockTree?
    ensures var nodes := PoolRead(Flatten(t, 0), Build(t, 0, h));
            && nodes == Held(t, 0)
            && (nodes == Flatten(t, 0) <==> Intact(t))
            && (OneTree(nodes, t) <==> Intact(t))
  {
    hide PoolRead, Flatten, HeldTrees.Held, Build, Intact, OneTree;
    PoolIsHeld(t, h);
    WholeInMemory(t);
  }

  // ----- Pushes with nothing in between -----

  /** Pointers pushed one after another, with no other request between them. */
  ghost function PushRefs(refs: seq<Ref>, h: Heap): (p: Pushed)
    ensures |h.mem| <= |p.heap.mem| && Within(p.heap, p.slots) && p.slots.count == |refs|
    decreases |refs|
  {
    if refs == [] then Pushed(h, EMPTY)
    else
      var n := |refs| - 1;
      var p := PushRefs(refs[..n], h);
      PushRef(refs[n], p.heap, p.slots)
  }

  function PushRef(r: Ref, h: Heap, s: Slots): (p: Pushed)
    requires Within(h, s)
    ensures |h.mem| <= |p.heap.mem| && Within(p.heap, p.slots) && p.slots.count == s.count + 1
  {
    var room := Reserve(h, s, REF_BYTES);
    StoreLast(room.heap, room.slots, RefCells(r))
  }

  ghost predicate RefsHeld(refs: seq<Ref>, lo: nat, p: Pushed)
    requires refs != []
  {
    var cap := ListCap(REF_BYTES, |refs|, false);
    && ListAt(p.heap.mem, lo, p.slots, REF_BYTES, RefsCells(HeldRefs(refs, |refs| >= 3)), cap)
    && |p.heap.mem| == p.slots.at.value + cap
  }

  lemma {:induction false} RefAdded(r: Ref, h: Heap, s: Slots, lo: nat, bytes: seq<Cell>, cap: nat)
    requires Within(h, s)
    requires var room := Reserve(h, s, REF_BYTES);
             && RoomAt(room.heap.mem, lo, room.slots, REF_BYTES, bytes, cap) && |room.heap.mem| == room.slots.at.value + cap
    requires (cap == 2 * REF_BYTES && s.count <= 1) || |bytes| + 3 * REF_BYTES <= cap
    ensures var p := PushRef(r, h, s);
            ListAt(p.heap.mem, lo, p.slots, REF_BYTES, bytes + RefCells(r), cap) && |p.heap.mem| == p.slots.at.value + cap
  {
    hide Reserve, RoomAt, ListAt, StoreLast, RefCells;
    var room := Reserve(h, s, REF_BYTES);
    RoomIsAbove(room.heap.mem, lo, room.slots, REF_BYTES, bytes, cap);
    StoreList(room.heap, room.slots, lo, bytes, cap, RefCells(r));
  }

  lemma {:induction false} RefsStored(refs: seq<Ref>, h: Heap)
    requires refs != []
    ensures RefsHeld(refs, |h.mem|, PushRefs(refs, h))
    decreases |refs|
  {
    hide RefCells, RefsCells, RoomAt, ListAt, Reserve, PushRef, HeldRefs, Listed, ListCap;
    var n := |refs| - 1;
    var r := refs[n];
    assert refs == refs[..n] + [r];
    if n == 0 {
      FirstRef(r, h);
      assert refs[..0] == [] && refs == [r];
      assert PushRefs([], h) == Pushed(h, EMPTY);
    } else {
      RefsStored(refs[..n], h);
      NextRef(refs[..n], r, |h.mem|, PushRefs(refs[..n], h));
    }
  }

  lemma {:induction false} FirstRef(r: Ref, h: Heap)
    ensures RefsHeld([r], |h.mem|, PushRef(r, h, EMPTY))
  {
    hide RefCells, RefsCells, RoomAt, ListAt, Reserve, PushRef;
    ReserveFirst(h, REF_BYTES);
    RefAdded(r, h, EMPTY, |h.mem|, [], 2 * REF_BYTES);
    var empty: seq<Ref> := [];
    RefsCellsAppend(empty, r);
    NoRefsCells();
    assert empty + [r] == [r];
  }

  lemma {:induction false} NextRef(refs: seq<Ref>, r: Ref, lo: nat, p: Pushed)
    requires refs != [] && RefsHeld(refs, lo, p) && Within(p.heap, p.slots) && p.slots.count == |refs|
    ensures RefsHeld(refs + [r], lo, PushRef(r, p.heap, p.slots))
  {
    hide RefCells, RefsCells, RoomAt, Reserve, PushRef, HeldRefs, Listed, ListCap, Loses;
    var cap, bytes := ListCap(REF_BYTES, |refs|, false), RefsCells(HeldRefs(refs, |refs| >= 3));
    ReserveList(p.heap, p.slots, lo, REF_BYTES, bytes, cap);
    CapStep(|p.heap.mem|, p.slots.at.value, REF_BYTES, |refs|, false, true);
    RefAdded(r, p.heap, p.slots, lo, KeptBytes(p.heap.mem, p.slots, REF_BYTES, bytes, cap),
             NextCap(p.heap.mem, p.slots, REF_BYTES, bytes, cap));
    PushedBytes(refs, r, |refs| >= 3, |refs| == 2);
  }

  /** Pushed with nothing in between, all pointers survive exactly when there are at most two, or the first two are null. */
  lemma {:induction false} PushesKeepExactlyWhen(refs: seq<Ref>, h: Heap, node: nat)
    ensures var p := PushRefs(refs, h);
            RefsRead(SetList(p.heap, node, p.slots), node) == refs <==> |refs| <= 2 || refs[0] == refs[1] == None
  {
    hide PushRefs, RefsCells, RefsRead, Listed, ListAt, Stored;
    var p := PushRefs(refs, h);
    var r := SetList(p.heap, node, p.slots);
    if refs == [] {
      NoRefsRead(h, node);
      NoRefsPushed(h);
    } else {
      RefsStored(refs, h);
      var held, cap := HeldRefs(refs, |refs| >= 3), ListCap(REF_BYTES, |refs|, false);
      ListIsStored(r, node, p.slots, |h.mem|, REF_BYTES, RefsCells(held), cap);
      StoredRefsRead(r, node, held, |h.mem|);
      if |refs| >= 3 && held == refs { assert held[0] == None && held[1] == None; }
      if |refs| >= 3 && refs[0] == refs[1] == None { assert held == refs; }
    }
  }

  lemma NoRefsRead(h: Heap, node: nat)
    ensures RefsRead(SetList(h, node, EMPTY), node) == []
  {
  }

  lemma {:induction false} NoRefsPushed(h: Heap)
    ensures PushRefs([], h) == Pushed(h, EMPTY)
  {
  }
}
