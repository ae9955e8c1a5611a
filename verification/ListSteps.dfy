/** One push onto a list of the parser: where the list is, what it holds, and what stays as it was. */
module ListSteps {
  import Bits
  import opened Growth
  import opened Heaps

  /** From `lo` on, the list holds `bytes`, in a block of `cap` bytes. */
  ghost predicate ListAt(mem: seq<Cell>, lo: nat, s: Slots, unit: nat, bytes: seq<Cell>, cap: nat) {
    && s.at.Some? && lo <= s.at.value && 0 < s.count && |bytes| == unit * s.count
    && Listed(|mem|, s.at.value, unit, |bytes|, cap) && (|bytes| == unit || |bytes| >= 2 * unit)
    && mem[s.at.value..s.at.value + |bytes|] == bytes
  }

  /** There is room for one more element, at the end of the memory or not; the earlier ones are there. */
  ghost predicate RoomAt(mem: seq<Cell>, lo: nat, s: Slots, unit: nat, bytes: seq<Cell>, cap: nat) {
    && s.at.Some? && lo <= s.at.value && |bytes| == unit * s.count && 0 < unit
    && |bytes| + unit <= cap && s.at.value + cap <= |mem|
    && mem[s.at.value..s.at.value + |bytes|] == bytes
  }

  /** Both memories have the same cells from `lo` to the end of the first, `[x, y)` apart. */
  ghost predicate SameOutside(a: seq<Cell>, b: seq<Cell>, lo: nat, x: nat, y: nat) {
    |a| <= |b| && forall j :: lo <= j < |a| && !(x <= j < y) ==> b[j] == a[j]
  }

  ghost function KeptBytes(mem: seq<Cell>, s: Slots, unit: nat, bytes: seq<Cell>, cap: nat): (kept: seq<Cell>)
    requires s.at.Some?
    ensures |kept| == |bytes|
  {
    if Loses(|mem|, s.at.value, unit, |bytes|, cap) then Zeros(|bytes|, Zero) else bytes
  }

  ghost function NextCap(mem: seq<Cell>, s: Slots, unit: nat, bytes: seq<Cell>, cap: nat): nat
    requires s.at.Some?
  {
    if InPlace(|mem|, s.at.value, unit, |bytes|) then cap else 2 * (|bytes| + unit)
  }

  lemma {:induction false} ReserveList(h: Heap, s: Slots, lo: nat, unit: nat, bytes: seq<Cell>, cap: nat)
    requires ListAt(h.mem, lo, s, unit, bytes, cap)
    ensures Within(h, s) && 0 < unit
    ensures var r := Reserve(h, s, unit);
            var next := NextCap(h.mem, s, unit, bytes, cap);
            && RoomAt(r.heap.mem, lo, r.slots, unit, KeptBytes(h.mem, s, unit, bytes, cap), next)
            && |r.heap.mem| == r.slots.at.value + next && |h.mem| <= |r.heap.mem| && r.heap.mem[..|h.mem|] == h.mem
            && (if InPlace(|h.mem|, s.at.value, unit, |bytes|) then r.slots.at == s.at && cap == next == 2 * unit
                else |h.mem| <= r.slots.at.value)
  {
    hide Grow;
    GrowList(h.mem, s.at.value, unit, s.count, |bytes|, cap, Zero);
  }

  lemma {:induction false} ReserveFirst(h: Heap, unit: nat)
    requires ALIGN <= unit
    ensures var r := Reserve(h, EMPTY, unit);
            && RoomAt(r.heap.mem, |h.mem|, r.slots, unit, [], 2 * unit)
            && |r.heap.mem| == r.slots.at.value + 2 * unit && |h.mem| <= |r.heap.mem| && r.heap.mem[..|h.mem|] == h.mem
  {
    hide Grow;
    GrowFirst(h.mem, unit, Zero);
  }

  /** Later requests do not disturb the room. */
  lemma {:induction false} RoomStays(mem: seq<Cell>, later: seq<Cell>, lo: nat, s: Slots, unit: nat, bytes: seq<Cell>, cap: nat)
    requires RoomAt(mem, lo, s, unit, bytes, cap) && |mem| <= |later| && later[..|mem|] == mem
    ensures RoomAt(later, lo, s, unit, bytes, cap)
  {
    assert later[s.at.value..s.at.value + |bytes|] == later[..|mem|][s.at.value..s.at.value + |bytes|];
  }

  lemma {:induction false} ListStays(mem: seq<Cell>, later: seq<Cell>, lo: nat, s: Slots, unit: nat, bytes: seq<Cell>, cap: nat)
    requires ListAt(mem, lo, s, unit, bytes, cap) && |mem| == s.at.value + cap && |mem| <= |later| && later[..|mem|] == mem
    requires |later| == |mem| || |later| > |mem| + unit
    ensures ListAt(later, lo, s, unit, bytes, cap)
  {
    assert later[s.at.value..s.at.value + |bytes|] == later[..|mem|][s.at.value..s.at.value + |bytes|];
  }

  lemma {:induction false} StoreList(h: Heap, s: Slots, lo: nat, bytes: seq<Cell>, cap: nat, cells: seq<Cell>)
    requires RoomAt(h.mem, lo, s, |cells|, bytes, cap) && ALIGN <= |cells|
    requires |h.mem| == s.at.value + cap || |h.mem| > s.at.value + cap + |cells|
    requires (cap == 2 * |cells| && s.count <= 1) || |bytes| + 3 * |cells| <= cap
    ensures s.at.Some? && s.at.value + |cells| * (s.count + 1) <= |h.mem|
    ensures var p := StoreLast(h, s, cells);
            && ListAt(p.heap.mem, lo, p.slots, |cells|, bytes + cells, cap)
            && |p.heap.mem| == |h.mem| && SameOutside(h.mem, p.heap.mem, 0, s.at.value, s.at.value + cap)
  {
    LastElement(|cells|, s.count);
    ShortList(|cells|, s.count);
    ShortList(|cells|, s.count + 1);
    WriteEnd(h.mem, s.at.value, bytes, cells, cap);
  }

  lemma {:induction false} WriteEnd(m: seq<Cell>, at: nat, bytes: seq<Cell>, cells: seq<Cell>, cap: nat)
    requires |bytes| + |cells| <= cap && at + cap <= |m| && m[at..at + |bytes|] == bytes
    ensures var r := Write(m, at + |bytes|, cells);
            r[at..at + (|bytes| + |cells|)] == bytes + cells && SameOutside(m, r, 0, at, at + cap)
  {
    var r := Write(m, at + |bytes|, cells);
    assert r[at..at + |bytes|] == m[at..at + |bytes|];
  }

  lemma {:induction false} ShortList(unit: nat, count: nat)
    ensures count == 0 ==> unit * count == 0
    ensures count == 1 ==> unit * count == unit
    ensures count >= 2 ==> unit * count >= 2 * unit
  {
    if count >= 2 { Bits.MultiplesApart(unit, 1, count); assert unit * 1 == unit; }
  }
}
