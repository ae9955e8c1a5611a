/**
 Growing lists in an arena whose memory above `used` is still zero: what `realloc_array` makes of the
 bytes handed out so far, and what becomes of a list that is pushed onto again and again.
 */
module Growth {
  import opened Tokens
  import opened Bits
  import opened Copying
  import opened Arenas

  /** The bytes handed out, the new ones included, and where the array is. */
  datatype Room<T> = Room(mem: seq<T>, start: nat)

  /** Pointers, and records that hold pointers, are aligned to 8 bytes. */
  const ALIGN: nat := 8

  function Zeros<T>(n: nat, zero: T): (z: seq<T>)
    ensures |z| == n && forall i :: 0 <= i < n ==> z[i] == zero
  {
    seq(n, _ => zero)
  }

  /** `alloc` on the bytes handed out so far: zeros up to the next multiple of 8, and then the block. */
  function Take<T>(mem: seq<T>, bytes: nat, zero: T): (g: Room<T>)
    ensures |mem| <= g.start < |mem| + ALIGN && g.start + bytes == |g.mem|
    ensures g.mem == mem + Zeros(|g.mem| - |mem|, zero)
  {
    var start := RoundUp(|mem|, ALIGN);
    Room(mem + Zeros(start - |mem| + bytes, zero), start)
  }

  /** `realloc_array` on the bytes handed out so far, in an arena that is large enough; above them there are zeros. */
  function Grow<T>(mem: seq<T>, at: Option<nat>, size: nat, count: nat, zero: T): (g: Room<T>)
    requires 0 < size && 0 < count && (at.Some? ==> at.value <= |mem|)
    ensures |mem| <= |g.mem| && g.start + size * count <= |g.mem|
  {
    if at.Some? && at.value + size * count == |mem| then Room(mem, at.value)
    else
      ElementsFit(size, count);
      var g := Take(mem, size * NextCapacity(count), zero);
      Room(if at.Some? then Memcpy(g.mem, g.start, at.value, size * count) else g.mem, g.start)
  }

  // ----- The same as the arena's own growth -----

  lemma {:induction false} CrossedPrefix<T>(a: seq<T>, rest: seq<T>, d: nat, s: nat, n: nat, k: nat)
    requires Readable(a, d, s, n) && StartsInside(d, s, n) && k <= n
    ensures Readable(a + rest, d, s, n) && Crossed(a + rest, d, s, n, k) == Crossed(a, d, s, n, k) + rest
  {
    if k > 0 { CrossedPrefix(a, rest, d, s, n, k - 1); }
  }

  /** What lies beyond everything that is read or written stays apart. */
  lemma {:induction false} MemcpyPrefix<T>(a: seq<T>, rest: seq<T>, d: nat, s: nat, n: nat)
    requires Readable(a, d, s, n)
    ensures Readable(a + rest, d, s, n) && Memcpy(a + rest, d, s, n) == Memcpy(a, d, s, n) + rest
  {
    if StartsInside(d, s, n) {
      CrossedPrefix(a, rest, d, s, n, n);
    } else {
      assert (a + rest)[s..s + n] == a[s..s + n] && (a + rest)[..d] == a[..d] && (a + rest)[d + n..] == a[d + n..] + rest;
    }
  }

  lemma RoundFromBase(base: nat, x: nat)
    requires base % ALIGN == 0
    ensures RoundUp(base + x, ALIGN) == base + RoundUp(x, ALIGN)
  {
  }

  /** The array's place in an arena, as the argument of `Grow`. */
  ghost function StartOf(st: State, block: Option<nat>): Option<nat>
    requires block.Some? ==> block.value < |st.live|
  {
    if block.Some? then Some(st.live[block.value].start) else None
  }

  /**
   In an arena that is zero above `used`, `realloc_array` fails exactly when the grown bytes do not
   fit, and otherwise leaves exactly these, with zeros above them again.
   */
  lemma {:induction false} GrowIsRealloc(st: State, block: Option<nat>, size: nat, count: nat)
    requires Sound(st) && Allowed(st, Realloc(block, size, ALIGN, count))
    requires st.base % ALIGN == 0 && ZerosIn(st.mem, st.used, |st.mem|, 0)
    requires block.Some? ==> st.live[block.value].start <= st.used
    ensures var g := Grow(st.mem[..st.used], StartOf(st, block), size, count, 0);
            var next := Step(st, Realloc(block, size, ALIGN, count));
            && PlaceOf(st, block, size, ALIGN, count) == (if |g.mem| <= |st.mem| then Some(g.start) else None)
            && (|g.mem| <= |st.mem| ==>
                  next.used == |g.mem| && |next.mem| == |st.mem| && next.mem[..next.used] == g.mem
                  && ZerosIn(next.mem, next.used, |next.mem|, 0))
  {
    hide AllocAt, Sensible, IsPowerOf2, Aligned, Ordered, Step, Memcpy, And;
    GrowthStep(st, block, size, ALIGN, count);
    ElementsFit(size, count);
    RoundFromBase(st.base, st.used);
    if !EndsAtTop(st, block, size, count) {
      var mem, start, bytes := st.mem[..st.used], RoundUp(st.used, ALIGN), size * NextCapacity(count);
      NewPlaceRounds(st, size, count);
      if start + bytes <= |st.mem| {
        var wide := mem + Zeros(start - |mem| + bytes, 0 as byte);
        assert wide == st.mem[..start + bytes];
        var rest := st.mem[start + bytes..];
        assert wide + rest == st.mem;
        if block.Some? { MemcpyPrefix(wide, rest, start, st.live[block.value].start, size * count); }
      }
    }
  }

  lemma {:induction false} NewPlaceRounds(st: State, size: nat, count: nat)
    requires Sound(st) && Allowed(st, Realloc(None, size, ALIGN, count)) && st.base % ALIGN == 0
    ensures var start := RoundUp(st.used, ALIGN);
            NewPlace(st, size, ALIGN, count) == if start + size * NextCapacity(count) <= |st.mem| then Some(start) else None
  {
    hide AllocAt, Aligned, Ordered, And, IsPowerOf2;
    RoundFromBase(st.base, st.used);
    ElementsFit(size, count);
    AllocRoundsUp(st.base, |st.mem|, st.used, size, ALIGN, NextCapacity(count));
  }

  // ----- A list that grows element by element -----

  /**
   A list of `len` bytes in a block of `cap`, in elements of `unit`: one or two elements in a block for
   two, or a block with room for two more. Its block is the last one, or something came after it.
   */
  ghost predicate Listed(used: nat, at: nat, unit: nat, len: nat, cap: nat) {
    && ALIGN <= unit <= len && at + cap <= used
    && ((cap == 2 * unit && len <= cap) || len + 2 * unit <= cap)
    && (used == at + cap || at + cap + unit < used)
  }

  /** The push at which the first two elements are lost. */
  ghost predicate Loses(used: nat, at: nat, unit: nat, len: nat, cap: nat) {
    len == cap && used == at + cap
  }

  ghost predicate InPlace(used: nat, at: nat, unit: nat, len: nat) {
    at + len + unit == used
  }

  /** One more element for a list of `n`: in place, or in a new block with the old bytes, or with zeros for them. */
  lemma {:induction false} GrowList<T>(mem: seq<T>, at: nat, unit: nat, n: nat, len: nat, cap: nat, zero: T)
    requires 0 < n && len == unit * n && Listed(|mem|, at, unit, len, cap) && (len == unit || len >= 2 * unit)
    ensures var g := Grow(mem, Some(at), unit, n + 1, zero);
            if InPlace(|mem|, at, unit, len) then g == Room(mem, at) && len == unit && cap == 2 * unit
            else
              && |mem| <= g.start && |g.mem| == g.start + 2 * (len + unit) && g.mem[..|mem|] == mem
              && g.mem[g.start..g.start + len] == if Loses(|mem|, at, unit, len, cap) then Zeros(len, zero) else mem[at..at + len]
  {
    hide Memcpy;
    OneMoreElement(unit, n);
    ElementsFit(unit, n + 1);
    assert unit * NextCapacity(n + 1) == 2 * (len + unit);
    if !InPlace(|mem|, at, unit, len) {
      var start := RoundUp(|mem|, ALIGN);
      var wide := mem + Zeros(start - |mem| + 2 * (len + unit), zero);
      assert Grow(mem, Some(at), unit, n + 1, zero) == Room(Memcpy(wide, start, at, len + unit), start);
      CopiedList(mem, wide, start, at, unit, len, cap, zero);
    }
  }

  lemma {:induction false} CopiedList<T>(mem: seq<T>, wide: seq<T>, start: nat, at: nat, unit: nat, len: nat, cap: nat, zero: T)
    requires Listed(|mem|, at, unit, len, cap) && (len == unit || len >= 2 * unit) && !InPlace(|mem|, at, unit, len)
    requires |mem| <= start < |mem| + ALIGN && wide == mem + Zeros(start - |mem| + 2 * (len + unit), zero)
    ensures Readable(wide, start, at, len + unit)
    ensures var m := Memcpy(wide, start, at, len + unit);
            && m[..|mem|] == mem
            && m[start..start + len] == if Loses(|mem|, at, unit, len, cap) then Zeros(len, zero) else mem[at..at + len]
  {
    hide Memcpy;
    assert |wide| == start + 2 * (len + unit);
    MemcpyStays(wide, start, at, len + unit);
    SamePrefix(Memcpy(wide, start, at, len + unit), wide, start, mem);
    if Loses(|mem|, at, unit, len, cap) {
      LostList(mem, wide, start, at, unit, zero);
    } else {
      KeptList(mem, wide, start, at, unit, len);
    }
  }

  lemma SamePrefix<T>(m: seq<T>, wide: seq<T>, start: nat, mem: seq<T>)
    requires |mem| <= start <= |wide| && |m| == |wide| && m[..start] == wide[..start] && mem == wide[..|mem|]
    ensures m[..|mem|] == mem
  {
    assert m[..start][..|mem|] == m[..|mem|] && wide[..start][..|mem|] == mem;
  }

  lemma {:induction false} LostList<T>(mem: seq<T>, wide: seq<T>, start: nat, at: nat, unit: nat, zero: T)
    requires |mem| == at + 2 * unit && ALIGN <= unit
    requires |mem| <= start < |mem| + ALIGN && wide == mem + Zeros(start - |mem| + 6 * unit, zero)
    ensures Readable(wide, start, at, 3 * unit) && Memcpy(wide, start, at, 3 * unit)[start..start + 2 * unit] == Zeros(2 * unit, zero)
  {
    CrossedZeros(wide, start, at, 3 * unit, 3 * unit, zero);
  }

  lemma {:induction false} KeptList<T>(mem: seq<T>, wide: seq<T>, start: nat, at: nat, unit: nat, len: nat)
    requires at + len + unit <= start && at + len <= |mem| <= start && start + len + unit <= |wide| && mem == wide[..|mem|]
    ensures Memcpy(wide, start, at, len + unit)[start..start + len] == mem[at..at + len]
  {
    hide Memcpy;
    var m := Memcpy(wide, start, at, len + unit);
    MemcpyStays(wide, start, at, len + unit);
    assert m[start..start + len + unit][..len] == m[start..start + len];
    assert wide[at..at + len + unit][..len] == wide[at..at + len] == mem[at..at + len];
  }

  /** The first element of a list. */
  lemma {:induction false} GrowFirst<T>(mem: seq<T>, unit: nat, zero: T)
    requires ALIGN <= unit
    ensures var g := Grow(mem, None, unit, 1, zero);
            |mem| <= g.start && |g.mem| == g.start + 2 * unit && g.mem[..|mem|] == mem
  {
    ElementsFit(unit, 1);
  }
}
