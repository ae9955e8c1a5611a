/** The arena: a bump allocator in 64-bit arithmetic, and arrays that grow in place or by copying. */
module Arenas {
  import opened Tokens
  import opened Bits
  import opened Copying

  /** A pointer: an address, or NULL. */
  type Pointer = Option<nat>

  /** A block that was handed out, by its distance from the arena's base, and its alignment. */
  datatype Block = Block(start: nat, len: nat, align: nat)

  /** The allocator's state; the blocks handed out are kept for reasoning only. */
  datatype State = State(base: nat, mem: Memory, used: nat, live: seq<Block>)

  /** Blocks stand one after another below `used`. */
  ghost predicate Ordered(live: seq<Block>, used: nat) {
    && (forall i :: 0 <= i < |live| ==> live[i].start + live[i].len <= used)
    && (forall i, j :: 0 <= i < j < |live| ==> live[i].start + live[i].len <= live[j].start)
  }

  /** Every block is at a multiple of the alignment it was asked for. */
  ghost predicate Aligned(live: seq<Block>, base: nat) {
    forall i :: 0 <= i < |live| ==> live[i].align > 0 && (base + live[i].start) % live[i].align == 0
  }

  ghost predicate Sound(st: State) {
    && 0 < st.base && st.base + |st.mem| < WORD && st.used <= |st.mem|
    && Ordered(st.live, st.used) && Aligned(st.live, st.base)
  }

  // ----- alloc -----

  datatype Grant = Grant(addr: nat, used: nat)

  /** What `alloc` computes, every operation modulo 2^64. */
  function AllocAt(base: nat, arenaSize: nat, used: nat, size: nat, align: nat, count: nat): Option<Grant>
    requires align < WORD
  {
    if base == 0 || size == 0 || align == 0 || count == 0 then None
    else
      var total := Wrap(size * count);
      var from := Wrap(base + used);
      var aligned := And(Wrap(from + (align - 1)), Not(align - 1));
      var newUsed := Wrap(Wrap(aligned - base) + total);
      if newUsed > arenaSize then None else Some(Grant(aligned, newUsed))
  }

  /** The request is for a power-of-two alignment and nothing wraps around. */
  ghost predicate Sensible(base: nat, used: nat, size: nat, align: nat, count: nat) {
    IsPowerOf2(align) && base + used + (align - 1) + size * count < WORD
  }

  /** A sensible request is granted the next aligned address, exactly when it fits. */
  lemma {:induction false} AllocRoundsUp(base: nat, arenaSize: nat, used: nat, size: nat, align: nat, count: nat)
    requires 0 < base && used <= arenaSize && Sensible(base, used, size, align, count) && align < WORD && 0 < size && 0 < count
    ensures var addr := RoundUp(base + used, align);
            && addr % align == 0 && base + used <= addr < base + used + align
            && AllocAt(base, arenaSize, used, size, align, count) ==
                 if addr - base + size * count <= arenaSize then Some(Grant(addr, addr - base + size * count)) else None
  {
    hide And;
    MaskRoundsUp(base + used, align);
    var total, addr := size * count, RoundUp(base + used, align);
    assert total >= 0;
    assert Wrap(base + used) == base + used && Wrap(base + used + (align - 1)) == base + used + (align - 1);
    assert Wrap(addr - base) == addr - base && Wrap(addr - base + total) == addr - base + total;
  }

  // ----- Runs of requests -----

  datatype Request =
    | Alloc(size: nat, align: nat, count: nat)
    | Push(count: nat)
    | Realloc(block: Option<nat>, size: nat, align: nat, count: nat)   // a live block, by its index
    | Store(index: nat, offset: nat, value: byte)                      // a byte of a live block, by its owner

  function NextCapacity(count: nat): (capacity: nat)
    ensures capacity >= 1 && capacity >= count
  {
    if count > 0 then count * 2 else 1
  }

  /** Sensible requests, about live blocks; how many elements a block that grows really owns does not matter. */
  ghost predicate Allowed(st: State, r: Request) {
    match r
    case Alloc(size, align, count) => align < WORD && Sensible(st.base, st.used, size, align, count)
    case Push(count) => st.used + count < WORD
    case Realloc(block, size, align, count) =>
      && 0 < size && 0 < count && align < WORD && Sensible(st.base, st.used, size, align, NextCapacity(count))
      && (block.Some? ==> block.value < |st.live|)
    case Store(index, offset, _) => index < |st.live| && offset < st.live[index].len
  }

  ghost function Granted(st: State, g: Option<Grant>, align: nat): State {
    if g.Some? && st.base <= g.value.addr <= st.base + g.value.used then
      var start := g.value.addr - st.base;
      st.(used := g.value.used, live := st.live + [Block(start, g.value.used - start, align)])
    else st
  }

  /** The elements end exactly at the top: the block is returned as it is. */
  ghost predicate EndsAtTop(st: State, block: Option<nat>, size: nat, count: nat) {
    block.Some? && block.value < |st.live| && st.live[block.value].start + size * count == st.used
  }

  /** The memory after `count` elements of a block were copied to an address. */
  ghost function Moved(st: State, block: Option<nat>, addr: nat, bytes: nat): Memory {
    if block.Some? && block.value < |st.live| && st.base <= addr
       && Readable(st.mem, addr - st.base, st.live[block.value].start, bytes)
    then Memcpy(st.mem, addr - st.base, st.live[block.value].start, bytes)
    else st.mem
  }

  ghost function Step(st: State, r: Request): State
    requires Allowed(st, r)
  {
    match r
    case Alloc(size, align, count) => Granted(st, AllocAt(st.base, |st.mem|, st.used, size, align, count), align)
    case Push(count) =>
      if st.used + count > |st.mem| then st
      else st.(used := st.used + count, live := st.live + [Block(st.used, count, 1)])
    case Realloc(block, size, align, count) =>
      if EndsAtTop(st, block, size, count) then st
      else
        var g := AllocAt(st.base, |st.mem|, st.used, size, align, NextCapacity(count));
        if g.None? then st
        else Granted(st, g, align).(mem := Moved(st, block, g.value.addr, size * count))
    case Store(index, offset, value) =>
      var at := st.live[index].start + offset;
      if at < |st.mem| then st.(mem := st.mem[at := value]) else st
  }

  ghost predicate AllAllowed(st: State, rs: seq<Request>)
    decreases |rs|
  {
    rs == [] || (Allowed(st, rs[0]) && AllAllowed(Step(st, rs[0]), rs[1..]))
  }

  ghost function Run(st: State, rs: seq<Request>): State
    requires AllAllowed(st, rs)
    decreases |rs|
  {
    if rs == [] then st else Run(Step(st, rs[0]), rs[1..])
  }

  ghost predicate Extends(st: State, later: State) {
    && later.base == st.base && |later.mem| == |st.mem| && st.used <= later.used
    && |st.live| <= |later.live| && later.live[..|st.live|] == st.live
  }

  lemma {:induction false} BlockAdded(live: seq<Block>, used: nat, b: Block, end: nat, base: nat)
    requires Ordered(live, used) && used <= b.start && b.start + b.len == end
    requires Aligned(live, base) && b.align > 0 && (base + b.start) % b.align == 0
    ensures Ordered(live + [b], end) && Aligned(live + [b], base)
  {
  }

  /** One sensible grant: the new block is aligned, above everything handed out before, and inside the arena. */
  lemma {:induction false} GrantKeepsSound(st: State, size: nat, align: nat, count: nat)
    requires Sound(st) && align < WORD && Sensible(st.base, st.used, size, align, count)
    ensures var g := AllocAt(st.base, |st.mem|, st.used, size, align, count);
            var next := Granted(st, g, align);
            && Sound(next) && Extends(st, next) && next.mem == st.mem
            && (g.Some? ==>
                  && g.value.addr == RoundUp(st.base + st.used, align)
                  && g.value.addr % align == 0 && st.base + st.used <= g.value.addr && g.value.used == next.used
                  && next.live == st.live + [Block(g.value.addr - st.base, size * count, align)])
            && (g.None? ==> next == st)
  {
    hide And, Wrap, IsPowerOf2, Ordered, Aligned;
    if size > 0 && count > 0 {
      AllocRoundsUp(st.base, |st.mem|, st.used, size, align, count);
      var g := AllocAt(st.base, |st.mem|, st.used, size, align, count);
      if g.Some? {
        BlockAdded(st.live, st.used, Block(g.value.addr - st.base, size * count, align), g.value.used, st.base);
      }
    }
  }

  /** Where a growing array goes when it does not end at the top, by its distance from the base. */
  ghost function NewPlace(st: State, size: nat, align: nat, count: nat): Option<nat>
    requires align < WORD
  {
    var g := AllocAt(st.base, |st.mem|, st.used, size, align, NextCapacity(count));
    if g.Some? && st.base <= g.value.addr then Some(g.value.addr - st.base) else None
  }

  /** The region that a growing array is copied from and the one it is copied to lie inside the arena. */
  lemma {:induction false} MoveIsReadable(st: State, i: nat, size: nat, align: nat, count: nat, to: nat)
    requires Sound(st) && Allowed(st, Realloc(Some(i), size, align, count)) && NewPlace(st, size, align, count) == Some(to)
    ensures Readable(st.mem, to, st.live[i].start, size * count) && to >= st.used >= st.live[i].start
    ensures to + size * NextCapacity(count) <= |st.mem| && size * NextCapacity(count) == 2 * (size * count)
  {
    hide AllocAt, Sensible, IsPowerOf2, Granted, Aligned;
    GrantKeepsSound(st, size, align, NextCapacity(count));
    ElementsFit(size, count);
    GrantedWithin(st, size, align, NextCapacity(count));
  }

  /** One growth, step by step. */
  lemma {:induction false} GrowthStep(st: State, block: Option<nat>, size: nat, align: nat, count: nat)
    requires Sound(st) && Allowed(st, Realloc(block, size, align, count))
    ensures var to := NewPlace(st, size, align, count);
            var g := AllocAt(st.base, |st.mem|, st.used, size, align, NextCapacity(count));
            var next := Step(st, Realloc(block, size, align, count));
            && (to.Some? <==> g.Some?) && (to.Some? ==> to.value == g.value.addr - st.base)
            && (EndsAtTop(st, block, size, count) ==> next == st)
            && (!EndsAtTop(st, block, size, count) && to.None? ==> next == st)
            && (!EndsAtTop(st, block, size, count) && to.Some? ==>
                  && next.live == st.live + [Block(to.value, size * NextCapacity(count), align)]
                  && next.used == to.value + size * NextCapacity(count) && next.base == st.base
                  && (block.None? ==> next.mem == st.mem)
                  && (block.Some? ==>
                        && Readable(st.mem, to.value, st.live[block.value].start, size * count)
                        && next.mem == Memcpy(st.mem, to.value, st.live[block.value].start, size * count)))
  {
    hide AllocAt, Sensible, IsPowerOf2, Aligned, Ordered;
    GrantKeepsSound(st, size, align, NextCapacity(count));
    var to := NewPlace(st, size, align, count);
    if to.Some? {
      GrantedWithin(st, size, align, NextCapacity(count));
      if block.Some? { MoveIsReadable(st, block.value, size, align, count, to.value); }
    }
  }

  lemma {:induction false} GrantedWithin(st: State, size: nat, align: nat, count: nat)
    requires Sound(st) && align < WORD && Sensible(st.base, st.used, size, align, count)
    requires AllocAt(st.base, |st.mem|, st.used, size, align, count).Some?
    ensures var g := AllocAt(st.base, |st.mem|, st.used, size, align, count).value;
            g.addr - st.base + size * count == g.used <= |st.mem|
  {
    hide And, Wrap, IsPowerOf2, Ordered, Aligned;
    if size > 0 && count > 0 { AllocRoundsUp(st.base, |st.mem|, st.used, size, align, count); }
  }

  lemma {:induction false} ElementsFit(size: nat, count: nat)
    ensures 0 <= size * count <= size * NextCapacity(count)
    ensures count > 0 ==> size * NextCapacity(count) == 2 * (size * count)
  {
    if count > 0 { assert size * (count * 2) == size * count + size * count; }
  }

  lemma {:induction false} StepKeepsSound(st: State, r: Request)
    requires Sound(st) && Allowed(st, r)
    ensures Sound(Step(st, r)) && Extends(st, Step(st, r))
  {
    hide AllocAt, Sensible, Granted, Ordered, Aligned;
    match r
    case Alloc(size, align, count) => GrantKeepsSound(st, size, align, count);
    case Push(count) =>
      if st.used + count <= |st.mem| { BlockAdded(st.live, st.used, Block(st.used, count, 1), st.used + count, st.base); }
    case Realloc(block, size, align, count) => GrantKeepsSound(st, size, align, NextCapacity(count));
    case Store(_, _, _) =>
  }

  /**
   Over any run of sensible requests all blocks stay disjoint, aligned and inside the arena, `used`
   never falls and never exceeds the size, and no block handed out is ever moved.
   */
  lemma {:induction false} RunKeepsSound(st: State, rs: seq<Request>)
    requires Sound(st) && AllAllowed(st, rs)
    ensures Sound(Run(st, rs)) && Extends(st, Run(st, rs))
    decreases |rs|
  {
    hide Sound, Step, Allowed;
    if rs != [] {
      StepKeepsSound(st, rs[0]);
      RunKeepsSound(Step(st, rs[0]), rs[1..]);
    }
  }

  lemma {:induction false} BlocksAreDisjoint(st: State, i: nat, j: nat)
    requires Sound(st) && i < |st.live| && j < |st.live| && i != j
    ensures st.live[i].start + st.live[i].len <= st.live[j].start || st.live[j].start + st.live[j].len <= st.live[i].start
    ensures st.live[i].start + st.live[i].len <= st.used <= |st.mem|
  {
  }

  // ----- Contents over runs -----

  /** The bytes of a block. */
  ghost function Bytes(st: State, i: nat): Memory
    requires Sound(st) && i < |st.live|
  {
    st.mem[st.live[i].start..st.live[i].start + st.live[i].len]
  }

  /** Nothing is stored into block `i` by its owner. */
  ghost predicate Untouched(rs: seq<Request>, i: nat) {
    forall k :: 0 <= k < |rs| && rs[k].Store? ==> rs[k].index != i
  }

  lemma {:induction false} StepKeepsBytes(st: State, r: Request, i: nat)
    requires Sound(st) && Allowed(st, r) && i < |st.live| && !(r.Store? && r.index == i)
    ensures Sound(Step(st, r)) && Extends(st, Step(st, r)) && Bytes(Step(st, r), i) == Bytes(st, i)
  {
    hide AllocAt, Sensible, Aligned;
    StepKeepsSound(st, r);
    BlockStays(st, Step(st, r), i);
    if r.Realloc? {
      MovedAbove(st, r, i);
    } else if r.Store? {
      BlocksAreDisjoint(st, r.index, i);
      StoredElsewhere(st.mem, st.live[r.index].start + r.offset, r.value, st.live[i].start, st.live[i].start + st.live[i].len);
    }
  }

  lemma {:induction false} BlockStays(st: State, later: State, i: nat)
    requires Extends(st, later) && i < |st.live|
    ensures i < |later.live| && later.live[i] == st.live[i]
  {
    assert later.live[..|st.live|][i] == st.live[i];
  }

  lemma StoredElsewhere(m: Memory, at: nat, value: byte, from: nat, to: nat)
    requires at < |m| && from <= to <= |m| && (at < from || to <= at)
    ensures m[at := value][from..to] == m[from..to]
  {
  }

  /** A copy goes above `used`, and so above every block handed out before. */
  lemma {:induction false} MovedAbove(st: State, r: Request, i: nat)
    requires Sound(st) && r.Realloc? && Allowed(st, r) && i < |st.live|
    ensures |Step(st, r).mem| == |st.mem|
    ensures var from, to := st.live[i].start, st.live[i].start + st.live[i].len;
            from <= to <= |st.mem| && Step(st, r).mem[from..to] == st.mem[from..to]
  {
    hide Step, Sensible, IsPowerOf2, Aligned, NewPlace, AllocAt;
    GrowthStep(st, r.block, r.size, r.align, r.count);
    var to := NewPlace(st, r.size, r.align, r.count);
    if to.Some? && r.block.Some? {
      MoveIsReadable(st, r.block.value, r.size, r.align, r.count, to.value);
      var from, n := st.live[r.block.value].start, r.size * r.count;
      MemcpyStays(st.mem, to.value, from, n);
      BelowStays(Memcpy(st.mem, to.value, from, n), st.mem, to.value, st.live[i].start, st.live[i].start + st.live[i].len);
    }
  }

  lemma BelowStays(a: Memory, b: Memory, top: nat, from: nat, to: nat)
    requires from <= to <= top <= |a| && top <= |b| && a[..top] == b[..top]
    ensures a[from..to] == b[from..to]
  {
    assert a[from..to] == a[..top][from..to] && b[from..to] == b[..top][from..to];
  }

  /** Over any run, a block that its owner does not store into keeps its bytes, whatever is allocated and grown. */
  lemma {:induction false} RunKeepsBytes(st: State, rs: seq<Request>, i: nat)
    requires Sound(st) && AllAllowed(st, rs) && i < |st.live| && Untouched(rs, i)
    ensures Sound(Run(st, rs)) && Extends(st, Run(st, rs)) && Bytes(Run(st, rs), i) == Bytes(st, i)
    decreases |rs|
  {
    hide Sound, Step, Allowed, Bytes;
    RunKeepsSound(st, rs);
    if rs != [] {
      StepKeepsBytes(st, rs[0], i);
      assert forall k :: 0 <= k < |rs[1..]| ==> rs[1..][k] == rs[k + 1];
      RunKeepsBytes(Step(st, rs[0]), rs[1..], i);
    }
  }

  // ----- Growing arrays -----

  /** Where the array is after the request, by its distance from the base; nowhere if the arena is exhausted. */
  ghost function PlaceOf(st: State, block: Option<nat>, size: nat, align: nat, count: nat): Option<nat>
    requires align < WORD
  {
    if EndsAtTop(st, block, size, count) then Some(st.live[block.value].start) else NewPlace(st, size, align, count)
  }

  /**
   Growth of an array that owns its elements: it is returned as it is exactly when it ends at the top,
   and otherwise copied to a new block with room for twice as many, if the arena has that.
   */
  lemma {:induction false} GrowthKeepsElements(st: State, i: nat, size: nat, align: nat, count: nat)
    requires Sound(st) && Allowed(st, Realloc(Some(i), size, align, count)) && size * count <= st.live[i].len
    ensures var place := PlaceOf(st, Some(i), size, align, count);
            var next := Step(st, Realloc(Some(i), size, align, count));
            && (place.Some? && !EndsAtTop(st, Some(i), size, count) ==>
                  next.live == st.live + [Block(place.value, size * NextCapacity(count), align)])
            && (place.None? ==> next == st)
            && (place.Some? ==> SameElements(st.mem, st.live[i].start, next.mem, place.value, size * count))
  {
    hide AllocAt, Sensible, IsPowerOf2, Aligned, Step, NewPlace;
    GrowthStep(st, Some(i), size, align, count);
    var place := PlaceOf(st, Some(i), size, align, count);
    if place.Some? && !EndsAtTop(st, Some(i), size, count) {
      MoveIsReadable(st, i, size, align, count, place.value);
      MemcpyStays(st.mem, place.value, st.live[i].start, size * count);
    }
  }

  /** The same bytes stand in both memories. */
  ghost predicate SameElements(m: Memory, from: nat, after: Memory, to: nat, bytes: nat) {
    from + bytes <= |m| && to + bytes <= |after| && after[to..to + bytes] == m[from..from + bytes]
  }

  /** The first `n` elements of a block are where the array is after a push, if the memory holds `m`. */
  ghost predicate PushKeeps(st: State, i: nat, size: nat, align: nat, n: nat, m: Memory)
    requires Allowed(st, Realloc(Some(i), size, align, n + 1)) && |m| == |st.mem|
  {
    var place := PlaceOf(st, Some(i), size, align, n + 1);
    place.Some? &&
    SameElements(m, st.live[i].start, Step(st.(mem := m), Realloc(Some(i), size, align, n + 1)).mem, place.value, size * n)
  }

  /**
   A push onto an array of `n` elements, in a block that need not own one more. If it is not refused,
   the elements survive it for every content of the memory exactly when the call is in place or the
   new block does not start inside the region that is copied.
   */
  lemma {:induction false} PushKeepsExactlyWhen(st: State, i: nat, size: nat, align: nat, n: nat, place: nat)
    requires Sound(st) && Allowed(st, Realloc(Some(i), size, align, n + 1)) && 0 < n && size * n <= st.live[i].len
    requires PlaceOf(st, Some(i), size, align, n + 1) == Some(place)
    ensures (forall m: Memory :: |m| == |st.mem| ==> PushKeeps(st, i, size, align, n, m)) <==>
              || st.live[i].start + size * (n + 1) == st.used
              || !(st.live[i].start < place < st.live[i].start + size * (n + 1))
  {
    hide AllocAt, Sensible, IsPowerOf2, Aligned, PushKeeps, PlaceOf, Sound;
    if EndsAtTop(st, Some(i), size, n + 1) || !StartsInside(place, st.live[i].start, size * (n + 1)) {
      forall m: Memory | |m| == |st.mem| ensures PushKeeps(st, i, size, align, n, m) {
        PushSurvives(st, i, size, align, n, place, m);
      }
    } else {
      PushLoses(st, i, size, align, n, place);
    }
  }

  /** The pointer and the state after growth: in place at the top, a new block below a new top, or nothing at all. */
  ghost predicate Grown(st: State, block: Option<nat>, size: nat, align: nat, count: nat, p: Pointer, next: State)
    requires align < WORD && (block.Some? ==> block.value < |st.live|)
  {
    var place := NewPlace(st, size, align, count);
    && (p.Some? <==> EndsAtTop(st, block, size, count) || place.Some?)
    && (EndsAtTop(st, block, size, count) ==> p == Some(st.base + st.live[block.value].start) && next == st)
    && (!EndsAtTop(st, block, size, count) && place.Some? ==>
          && p == Some(st.base + place.value)
          && next.live == st.live + [Block(place.value, size * NextCapacity(count), align)]
          && next.used == place.value + size * NextCapacity(count))
    && (p.Some? && block.Some? && size * count <= st.live[block.value].len ==>
          && st.base <= p.value
          && SameElements(st.mem, st.live[block.value].start, next.mem, p.value - st.base, size * count))
    && (p.None? ==> next == st)
  }

  lemma {:induction false} GrowthResult(st: State, block: Option<nat>, size: nat, align: nat, count: nat, p: Pointer)
    requires Sound(st) && Allowed(st, Realloc(block, size, align, count))
    requires p == if EndsAtTop(st, block, size, count) then Some(st.base + st.live[block.value].start)
                  else Address(AllocAt(st.base, |st.mem|, st.used, size, align, NextCapacity(count)))
    ensures Grown(st, block, size, align, count, p, Step(st, Realloc(block, size, align, count)))
  {
    hide AllocAt, Sensible, IsPowerOf2, Aligned, Ordered, Step, NewPlace, SameElements;
    GrowthStep(st, block, size, align, count);
    if block.Some? && size * count <= st.live[block.value].len { GrowthKeepsElements(st, block.value, size, align, count); }
  }

  lemma {:induction false} OneMoreElement(size: nat, n: nat)
    ensures size * (n + 1) == size * n + size
    ensures 0 < size && 0 < n ==> 0 < size * n
  {
    if 0 < size && 0 < n { assert size * n == size * (n - 1) + size; }
  }

  lemma {:induction false} PushSurvives(st: State, i: nat, size: nat, align: nat, n: nat, place: nat, m: Memory)
    requires Sound(st) && Allowed(st, Realloc(Some(i), size, align, n + 1)) && size * n <= st.live[i].len && |m| == |st.mem|
    requires PlaceOf(st, Some(i), size, align, n + 1) == Some(place)
    requires EndsAtTop(st, Some(i), size, n + 1) || !StartsInside(place, st.live[i].start, size * (n + 1))
    ensures PushKeeps(st, i, size, align, n, m)
  {
    hide AllocAt, Sensible, IsPowerOf2, Step, Aligned;
    var now := st.(mem := m);
    assert Sound(now) && Allowed(now, Realloc(Some(i), size, align, n + 1));
    GrowthStep(now, Some(i), size, align, n + 1);
    OneMoreElement(size, n);
    if !EndsAtTop(st, Some(i), size, n + 1) {
      MoveIsReadable(st, i, size, align, n + 1, place);
      var from, bytes := st.live[i].start, size * (n + 1);
      MemcpyStays(m, place, from, bytes);
      FirstOnes(Memcpy(m, place, from, bytes), place, m, from, bytes, size * n);
    }
  }

  lemma FirstOnes(a: Memory, to: nat, m: Memory, from: nat, bytes: nat, first: nat)
    requires to + bytes <= |a| && from + bytes <= |m| && first <= bytes && a[to..to + bytes] == m[from..from + bytes]
    ensures SameElements(m, from, a, to, first)
  {
    assert a[to..to + bytes][..first] == a[to..to + first] && m[from..from + bytes][..first] == m[from..from + first];
  }

  lemma {:induction false} PushLoses(st: State, i: nat, size: nat, align: nat, n: nat, place: nat)
    requires Sound(st) && Allowed(st, Realloc(Some(i), size, align, n + 1)) && 0 < n && size * n <= st.live[i].len
    requires PlaceOf(st, Some(i), size, align, n + 1) == Some(place) && !EndsAtTop(st, Some(i), size, n + 1)
    requires StartsInside(place, st.live[i].start, size * (n + 1))
    ensures exists m: Memory :: |m| == |st.mem| && !PushKeeps(st, i, size, align, n, m)
  {
    hide AllocAt, Sensible, IsPowerOf2, Step, Aligned;
    var from, bytes := st.live[i].start, size * (n + 1);
    var m := OneAt(|st.mem|, from);
    var now := st.(mem := m);
    OneMoreElement(size, n);
    MoveIsReadable(st, i, size, align, n + 1, place);
    OverlapLosesBytes(|st.mem|, place, from, bytes, 0);
    assert Sound(now) && Allowed(now, Realloc(Some(i), size, align, n + 1));
    GrowthStep(now, Some(i), size, align, n + 1);
    var after := Memcpy(m, place, from, bytes);
    assert after[place..place + size * n][0] == 0 && m[from..from + size * n][0] == 1;
    assert !PushKeeps(st, i, size, align, n, m);
  }

  /** An element stored after a push in place lies inside the array's block exactly when the block has room for it. */
  lemma {:induction false} InPlaceIsSafeExactlyWhen(st: State, i: nat, size: nat, n: nat, capacity: nat)
    requires Sound(st) && i < |st.live| && 0 < size && st.live[i].len == size * capacity
    requires EndsAtTop(st, Some(i), size, n + 1)
    ensures size * (n + 1) <= st.live[i].len <==> n + 1 <= capacity
  {
    if n + 1 <= capacity {
      Bits.MultiplesApart(size, n + 1, capacity);
    } else {
      Bits.MultiplesApart(size, capacity, n + 1);
    }
  }

  /** The failing family that a list of pointers runs into: two elements, both slots used, at the top. */
  lemma {:induction false} ThirdPushOverlaps(st: State, i: nat, size: nat, align: nat, place: nat)
    requires Sound(st) && Allowed(st, Realloc(Some(i), size, align, 3)) && PlaceOf(st, Some(i), size, align, 3) == Some(place)
    requires st.live[i].start + 2 * size == st.used && st.live[i].len == 2 * size && (st.base + st.used) % align == 0
    ensures !EndsAtTop(st, Some(i), size, 3) && place == st.used && StartsInside(place, st.live[i].start, 3 * size)
    ensures exists m: Memory :: |m| == |st.mem| && !PushKeeps(st, i, size, align, 2, m)
  {
    hide AllocAt, Sensible, IsPowerOf2, Aligned, Ordered, PushKeeps;
    GrantKeepsSound(st, size, align, NextCapacity(3));
    RoundsToMultiple(st.base + st.used, align);
    assert size * 3 == 3 * size && size * 2 == 2 * size;
    PushLoses(st, i, size, align, 2, place);
  }

  function Address(g: Option<Grant>): Pointer {
    if g.Some? then Some(g.value.addr) else None
  }

  /** A request is granted exactly when it is for something and the block fits behind the next aligned address. */
  lemma {:induction false} GrantedExactlyWhen(st: State, size: nat, align: nat, count: nat)
    requires Sound(st) && Allowed(st, Alloc(size, align, count))
    ensures AllocAt(st.base, |st.mem|, st.used, size, align, count).Some?
       <==> 0 < size && 0 < count && RoundUp(st.base + st.used, align) - st.base + size * count <= |st.mem|
  {
    hide And, IsPowerOf2, Ordered, Aligned;
    if 0 < size && 0 < count { AllocRoundsUp(st.base, |st.mem|, st.used, size, align, count); }
  }

  // ----- The arena itself -----

  class Arena {
    const base: nat
    const size: nat
    const mem: array<byte>
    var used: nat
    ghost var live: seq<Block>

    constructor (base: nat, size: nat)
      requires 0 < base && base + size < WORD
      ensures this.base == base && this.size == size && fresh(mem)
      ensures Valid() && used == 0 && live == [] && forall i :: 0 <= i < size ==> mem[i] == 0
    {
      this.base := base;
      this.size := size;
      mem := new byte[size](_ => 0);
      used := 0;
      live := [];
    }

    ghost function Now(): State
      reads this, mem
    {
      State(base, mem[..], used, live)
    }

    ghost predicate Valid()
      reads this, mem
    {
      Sound(Now()) && mem.Length == size
    }

    method AllocBytes(size: nat, align: nat, count: nat) returns (p: Pointer)
      requires Valid() && Allowed(Now(), Alloc(size, align, count))
      modifies this
      ensures Valid() && Now() == Step(old(Now()), Alloc(size, align, count))
      ensures p == Address(AllocAt(base, this.size, old(used), size, align, count))
      ensures p.Some? <==> 0 < size && 0 < count && RoundUp(base + old(used), align) - base + size * count <= this.size
      ensures p.Some? ==>
                && p.value % align == 0 && base + old(used) <= p.value && used == p.value - base + size * count
                && live == old(live) + [Block(p.value - base, size * count, align)]
      ensures p.None? ==> Now() == old(Now())
    {
      hide And, Wrap, IsPowerOf2, Sound, Sensible;
      ghost var before := Now();
      ghost var g := AllocAt(base, this.size, used, size, align, count);
      GrantKeepsSound(before, size, align, count);
      GrantedExactlyWhen(before, size, align, count);
      if base == 0 || size == 0 || align == 0 || count == 0 { return None; }
      var total := Wrap(size * count);
      var from := Wrap(base + used);
      var aligned := And(Wrap(from + (align - 1)), Not(align - 1));
      var newUsed := Wrap(Wrap(aligned - base) + total);
      assert g == if newUsed > this.size then None else Some(Grant(aligned, newUsed));
      if newUsed > this.size { return None; }
      live := Granted(before, g, align).live;
      used := newUsed;
      p := Some(aligned);
    }

    method PushBytes(count: nat) returns (p: Pointer)
      requires Valid() && Allowed(Now(), Push(count))
      modifies this
      ensures Valid() && Now() == Step(old(Now()), Push(count))
      ensures p == if old(used) + count <= size then Some(base + old(used)) else None
    {
      StepKeepsSound(Now(), Push(count));
      if Wrap(used + count) > size { return None; }
      p := Some(base + used);
      live := live + [Block(used, count, 1)];
      used := used + count;
    }

    /**
     Grows an array of `count` elements, whether or not its block owns that many. An array at the top is
     returned as it is, and its inner growth call is never reached; any other is copied into a new block,
     and NULL is returned exactly when there is no room for that block.
     */
    method ReallocArray(ghost block: Option<nat>, from: Pointer, size: nat, align: nat, count: nat) returns (p: Pointer)
      requires Valid() && Allowed(Now(), Realloc(block, size, align, count))
      requires block.Some? <==> from.Some?
      requires block.Some? ==> from.value == base + live[block.value].start
      modifies this, mem
      ensures Valid() && Now() == Step(old(Now()), Realloc(block, size, align, count))
      ensures Grown(old(Now()), block, size, align, count, p, Now())
    {
      hide And, Wrap, IsPowerOf2, Ordered, Aligned, AllocAt, Step, Sensible, Grown;
      ghost var before := Now();
      StepKeepsSound(before, Realloc(block, size, align, count));
      GrowthStep(before, block, size, align, count);
      var top := base + used;
      if from.Some? && from.value + size * count == top {
        // The elements end at the top: there are exactly as many as are asked for, so nothing is allocated.
        assert count <= (from.value + size * count - from.value) / size by { WholeElements(size, count); }
        GrowthResult(before, block, size, align, count, from);
        return from;
      }
      p := AllocBytes(size, align, NextCapacity(count));
      GrowthResult(before, block, size, align, count, p);
      if p.Some? && from.Some? {
        MemCopy(mem, p.value - base, from.value - base, size * count);
      }
    }
  }

  lemma {:induction false} WholeElements(size: nat, count: nat)
    requires size > 0
    ensures size * count / size == count
  {
    QuotientUnique(size * count, size, count, 0);
  }
}
