/**
 The lists of the parser in its arena. A call, an array literal and a block keep a pointer to an array
 of node pointers, a function one to an array of parameters, and all of them grow by `realloc_array`.
 */
module Heaps {
  import opened Tokens
  import opened Syntax
  import opened Pool
  import opened Growth

  /** A byte of the arena: zero, or a byte of a node pointer or of a parameter. */
  datatype Cell = Zero | RefByte(node: nat, k: nat) | ParamByte(param: Param, k: nat)

  const REF_BYTES: nat := 8     // the size of a node pointer
  const PARAM: nat := 48      // of a parameter: two names of 24 bytes each
  const FUNC_DATA: nat := 40  // of the record that describes a function

  /** A null pointer is eight zero bytes. */
  function RefCells(r: Ref): (cells: seq<Cell>)
    ensures |cells| == REF_BYTES
  {
    if r.None? then Zeros(REF_BYTES, Zero) else seq(REF_BYTES, k requires 0 <= k => RefByte(r.value, k))
  }

  /** A parameter without name and type, as a zeroed one is read. */
  const BLANK := Param("", None)

  function ParamCells(p: Param): (cells: seq<Cell>)
    ensures |cells| == PARAM
  {
    if p == BLANK then Zeros(PARAM, Zero) else seq(PARAM, k requires 0 <= k => ParamByte(p, k))
  }

  /** A list as a node keeps it: where its array is, if there is one, and how many elements it has. */
  datatype Slots = Slots(at: Option<nat>, count: nat)

  const EMPTY := Slots(None, 0)

  /** The bytes of the arena that were handed out, and the lists of the nodes by their index. */
  datatype Heap = Heap(mem: seq<Cell>, lists: map<nat, Slots>)

  /** A heap and the list that is being built in it. */
  datatype Pushed = Pushed(heap: Heap, slots: Slots)

  predicate Within(h: Heap, s: Slots) {
    s.at.Some? ==> s.at.value <= |h.mem|
  }

  /** Room for one more element; it is not stored yet. */
  function Reserve(h: Heap, s: Slots, unit: nat): (p: Pushed)
    requires 0 < unit && Within(h, s)
    ensures |h.mem| <= |p.heap.mem| && p.heap.lists == h.lists && p.slots.count == s.count
    ensures p.slots.at.Some? && p.slots.at.value + unit * (p.slots.count + 1) <= |p.heap.mem|
  {
    var g := Grow(h.mem, s.at, unit, s.count + 1, Zero);
    Pushed(h.(mem := g.mem), Slots(Some(g.start), s.count))
  }

  function Write(m: seq<Cell>, at: nat, cells: seq<Cell>): (r: seq<Cell>)
    requires at + |cells| <= |m|
    ensures |r| == |m|
  {
    m[..at] + cells + m[at + |cells|..]
  }

  /** Stores the element that room was made for. */
  function StoreLast(h: Heap, s: Slots, cells: seq<Cell>): (p: Pushed)
    requires s.at.Some? && s.at.value + |cells| * (s.count + 1) <= |h.mem|
    ensures |p.heap.mem| == |h.mem| && p.heap.lists == h.lists
    ensures p.slots == Slots(s.at, s.count + 1) && Within(p.heap, p.slots)
  {
    LastElement(|cells|, s.count);
    Pushed(h.(mem := Write(h.mem, s.at.value + |cells| * s.count, cells)), Slots(s.at, s.count + 1))
  }

  lemma {:induction false} LastElement(unit: nat, count: nat)
    ensures unit * (count + 1) == unit * count + unit
  {
  }

  function SetList(h: Heap, node: nat, s: Slots): Heap {
    h.(lists := h.lists[node := s])
  }

  // ----- What building a tree does to the heap -----

  lemma {:induction false} SizesLast(ts: seq<Tree>)
    requires ts != []
    ensures var n := |ts| - 1;
            Sizes(ts) == Sizes(ts[..n]) + Size(ts[n])
  {
    hide Size;
    var n := |ts| - 1;
    assert ts == ts[..n] + [ts[n]];
    SizesAppend(ts[..n], [ts[n]]);
    SizesShort(ts[n], ts[n], ts[n]);
  }

  /** Building `t`, whose first node has index `base`. */
  ghost function Build(t: Tree, base: nat, h: Heap): (r: Heap)
    ensures |h.mem| <= |r.mem|
    decreases Size(t), 0, 0
  {
    if t.NoTree? then h
    else
      SizeOfParts(t);
      var parts, k := Parts(t), Earlier(t);
      var at := base + Sizes(parts[..k]);
      var before := BuildAll(parts[..k], base, h);
      if t.BlockTree? then PushStmts(parts[k..], at, at + 1, SetList(before, at, EMPTY)).heap
      else if t.CallTree? then
        var p := PushArgs(parts[k..], at + 1, before);
        SetList(p.heap, at, p.slots)
      else if t.ArrayTree? then
        ArrayParts(t);
        var elems, length := List(t.elems), t.length;
        var p := PushArgs(elems, at + 1, before);
        SetList(Build(length, at + 1 + Sizes(elems), p.heap), at, p.slots)
      else if t.FuncTree? then
        FuncParts(t);
        Build(t.block, at + 1 + Size(t.ident), Describe(t.params, at, Build(t.ident, at + 1, before)))
      else BuildAll(parts[k..], at + 1, before)
  }

  lemma {:induction false} ArrayParts(t: Tree)
    requires t.ArrayTree?
    ensures Earlier(t) == 0 && Parts(t) == List(t.elems) + [t.length] && Size(t) == 1 + Sizes(List(t.elems)) + Size(t.length)
  {
    SizesList(t.elems);
  }

  lemma {:induction false} FuncParts(t: Tree)
    requires t.FuncTree?
    ensures Earlier(t) == 0 && Parts(t) == [t.ident, t.block] && Size(t) == 1 + Size(t.ident) + Size(t.block)
  {
  }

  ghost function BuildAll(parts: seq<Tree>, base: nat, h: Heap): (r: Heap)
    ensures |h.mem| <= |r.mem|
    decreases Sizes(parts), 1, |parts|
  {
    if parts == [] then h else BuildAll(parts[1..], base + Size(parts[0]), Build(parts[0], base, h))
  }

  /** The list of a call or an array literal: room for an element is made before it is parsed. */
  ghost function PushArgs(ts: seq<Tree>, base: nat, h: Heap): (p: Pushed)
    ensures |h.mem| <= |p.heap.mem| && Within(p.heap, p.slots) && p.slots.count == |ts|
    decreases Sizes(ts), 1, |ts|
  {
    if ts == [] then Pushed(h, EMPTY)
    else
      var n := |ts| - 1;
      SizesLast(ts);
      var p := PushArgs(ts[..n], base, h);
      PushArg(ts[n], base + Sizes(ts[..n]), p.heap, p.slots)
  }

  ghost function PushArg(t: Tree, base: nat, h: Heap, s: Slots): (p: Pushed)
    requires Within(h, s)
    ensures |h.mem| <= |p.heap.mem| && Within(p.heap, p.slots) && p.slots.count == s.count + 1
    decreases Size(t), 0, 1
  {
    var room := Reserve(h, s, REF_BYTES);
    StoreLast(Build(t, base, room.heap), room.slots, RefCells(Root(t, base)))
  }

  /** The statements of a block: a statement is parsed first, and the block's list is kept up to date. */
  ghost function PushStmts(ts: seq<Tree>, node: nat, base: nat, h: Heap): (p: Pushed)
    ensures |h.mem| <= |p.heap.mem| && Within(p.heap, p.slots) && p.slots.count == |ts|
    decreases Sizes(ts), 1, |ts|
  {
    if ts == [] then Pushed(h, EMPTY)
    else
      var n := |ts| - 1;
      SizesLast(ts);
      var p := PushStmts(ts[..n], node, base, h);
      PushStmt(ts[n], node, base + Sizes(ts[..n]), p.heap, p.slots)
  }

  ghost function PushStmt(t: Tree, node: nat, base: nat, h: Heap, s: Slots): (p: Pushed)
    requires Within(h, s)
    ensures |h.mem| <= |p.heap.mem| && Within(p.heap, p.slots) && p.slots.count == s.count + 1
    decreases Size(t), 0, 1
  {
    AddLast(Build(t, base, h), node, s, RefCells(Root(t, base)))
  }

  /** One more element of the list of `node`. */
  function AddLast(h: Heap, node: nat, s: Slots, cells: seq<Cell>): (p: Pushed)
    requires Within(h, s) && |cells| > 0
    ensures |h.mem| <= |p.heap.mem| && Within(p.heap, p.slots) && p.slots.count == s.count + 1
  {
    var room := Reserve(h, s, |cells|);
    var p := StoreLast(room.heap, room.slots, cells);
    Pushed(SetList(p.heap, node, p.slots), p.slots)
  }

  /** The parameters of a function: nothing is requested between two of them. */
  ghost function PushParams(ps: seq<Param>, h: Heap): (p: Pushed)
    ensures |h.mem| <= |p.heap.mem| && Within(p.heap, p.slots) && p.slots.count == |ps|
    decreases |ps|
  {
    if ps == [] then Pushed(h, EMPTY)
    else
      var n := |ps| - 1;
      var p := PushParams(ps[..n], h);
      PushParam(ps[n], p.heap, p.slots)
  }

  lemma {:induction false} NoParamsPushed(h: Heap)
    ensures PushParams([], h) == Pushed(h, EMPTY)
  {
  }

  function PushParam(p: Param, h: Heap, s: Slots): (r: Pushed)
    requires Within(h, s)
    ensures |h.mem| <= |r.heap.mem| && Within(r.heap, r.slots) && r.slots.count == s.count + 1
  {
    var room := Reserve(h, s, PARAM);
    StoreLast(room.heap, room.slots, ParamCells(p))
  }

  /** The parameters and then the record that holds their list. */
  ghost function Describe(ps: seq<Param>, node: nat, h: Heap): (r: Heap)
    ensures |h.mem| <= |r.mem|
  {
    var p := PushParams(ps, h);
    AddRecord(p.heap, node, p.slots)
  }

  /** The record's own bytes are left blank; the list that it holds is kept in `lists`. */
  function AddRecord(h: Heap, node: nat, s: Slots): (r: Heap)
    ensures |h.mem| <= |r.mem|
  {
    SetList(h.(mem := Take(h.mem, FUNC_DATA, Zero).mem), node, s)
  }
}
