/** The hand-written memcpy, on a memory of cells. */
module Copying {

  newtype byte = x: int | 0 <= x < 256

  type Memory = seq<byte>

  /** The bytes from `s` stand at `d`, and nothing else has changed. */
  function Copied<T>(m: seq<T>, d: nat, s: nat, n: nat): (r: seq<T>)
    requires d + n <= |m| && s + n <= |m|
    ensures |r| == |m|
  {
    m[..d] + m[s..s + n] + m[d + n..]
  }

  predicate StartsInside(d: nat, s: nat, n: nat) {
    s < d < s + n
  }

  /** The region the copy reads: when the destination starts inside the source, it reads on from the source's last byte. */
  predicate Readable<T>(m: seq<T>, d: nat, s: nat, n: nat) {
    d + n <= |m| && s + n <= |m| && (StartsInside(d, s, n) ==> s + 2 * n - 1 <= |m|)
  }

  /** The first `k` steps of the copy that goes down through the destination but up through the source. */
  function Crossed<T>(m: seq<T>, d: nat, s: nat, n: nat, k: nat): (r: seq<T>)
    requires Readable(m, d, s, n) && StartsInside(d, s, n) && k <= n
    ensures |r| == |m|
  {
    if k == 0 then m
    else
      var before := Crossed(m, d, s, n, k - 1);
      before[d + n - k := before[s + n + k - 2]]
  }

  /** What memcpy leaves in memory. */
  function Memcpy<T>(m: seq<T>, d: nat, s: nat, n: nat): (r: seq<T>)
    requires Readable(m, d, s, n)
    ensures |r| == |m|
  {
    if StartsInside(d, s, n) then Crossed(m, d, s, n, n) else Copied(m, d, s, n)
  }

  /** A memory that is zero except at `at`. */
  ghost function OneAt(size: nat, at: nat): (m: Memory)
    requires at < size
    ensures |m| == size && forall i :: 0 <= i < size ==> m[i] == if i == at then 1 else 0
  {
    seq(size, i => if i == at then 1 else 0)
  }

  /** All cells from `from` to `to` hold `zero`. */
  ghost predicate ZerosIn<T>(m: seq<T>, from: nat, to: nat, zero: T) {
    forall i :: from <= i < to && i < |m| ==> m[i] == zero
  }

  /** From a memory that is zero from the source's last byte on, only zeros are copied. */
  lemma {:induction false} CrossedZeros<T>(m: seq<T>, d: nat, s: nat, n: nat, k: nat, zero: T)
    requires Readable(m, d, s, n) && StartsInside(d, s, n) && k <= n && ZerosIn(m, s + n - 1, |m|, zero)
    ensures var r := Crossed(m, d, s, n, k);
            ZerosIn(r, s + n - 1, |m|, zero) && ZerosIn(r, d + n - k, d + n, zero)
  {
    if k > 0 {
      CrossedZeros(m, d, s, n, k - 1, zero);
      var before := Crossed(m, d, s, n, k - 1);
      assert before[s + n + k - 2] == zero;
    }
  }

  /** Wherever it starts, the copy changes nothing outside its destination. */
  lemma {:induction false} CrossedStays<T>(m: seq<T>, d: nat, s: nat, n: nat, k: nat)
    requires Readable(m, d, s, n) && StartsInside(d, s, n) && k <= n
    ensures Crossed(m, d, s, n, k)[..d + n - k] == m[..d + n - k] && Crossed(m, d, s, n, k)[d + n..] == m[d + n..]
  {
    if k > 0 {
      CrossedStays(m, d, s, n, k - 1);
      var before := Crossed(m, d, s, n, k - 1);
      var after := before[d + n - k := before[s + n + k - 2]];
      assert after[..d + n - k] == before[..d + n - (k - 1)][..d + n - k];
      assert m[..d + n - (k - 1)][..d + n - k] == m[..d + n - k];
      assert after[d + n..] == before[d + n..];
    }
  }

  /**
   What the crossed copy leaves at the i-th byte from the end of its destination: the byte as far beyond
   the source's last one, except where that byte was written before it was read; there it is its own again.
   */
  lemma {:induction false} CrossedExactly<T>(m: seq<T>, d: nat, s: nat, n: nat, k: nat, i: nat)
    requires Readable(m, d, s, n) && StartsInside(d, s, n) && i < k <= n
    ensures Crossed(m, d, s, n, k)[d + n - 1 - i] == if d - s < 2 * i && i <= d - s then m[d + n - 1 - i] else m[s + n - 1 + i]
    decreases k
  {
    hide Crossed;
    CrossedStep(m, d, s, n, k);
    if i < k - 1 {
      CrossedExactly(m, d, s, n, k - 1, i);
    } else {
      var from := s + n - 1 + i;
      if d + n - i <= from < d + n {
        CrossedExactly(m, d, s, n, k - 1, d - s - i);
      } else {
        CrossedStays(m, d, s, n, k - 1);
        var before := Crossed(m, d, s, n, k - 1);
        if from < d + n - i {
          assert before[..d + n - i][from] == m[..d + n - i][from];
        } else {
          assert before[d + n..][from - (d + n)] == m[d + n..][from - (d + n)];
        }
      }
    }
  }

  lemma CrossedStep<T>(m: seq<T>, d: nat, s: nat, n: nat, k: nat)
    requires Readable(m, d, s, n) && StartsInside(d, s, n) && 0 < k <= n
    ensures var before := Crossed(m, d, s, n, k - 1);
            Crossed(m, d, s, n, k) == before[d + n - k := before[s + n + k - 2]]
  {
  }

  lemma {:induction false} MemcpyStays<T>(m: seq<T>, d: nat, s: nat, n: nat)
    requires Readable(m, d, s, n)
    ensures Memcpy(m, d, s, n)[..d] == m[..d] && Memcpy(m, d, s, n)[d + n..] == m[d + n..]
    ensures !StartsInside(d, s, n) ==> Memcpy(m, d, s, n)[d..d + n] == m[s..s + n]
  {
    if StartsInside(d, s, n) { CrossedStays(m, d, s, n, n); }
  }

  /** A destination that starts inside its source loses any byte of it but the last. */
  lemma {:induction false} OverlapLosesBytes(size: nat, d: nat, s: nat, n: nat, k: nat)
    requires StartsInside(d, s, n) && d + n <= size && s + 2 * n - 1 <= size && k < n - 1
    ensures var m := OneAt(size, s + k);
            m[s + k] == 1 && Memcpy(m, d, s, n)[d + k] == 0
  {
    var m := OneAt(size, s + k);
    CrossedZeros(m, d, s, n, n, 0);
    assert Memcpy(m, d, s, n) == Crossed(m, d, s, n, n);
  }

  /** memcpy copies every memory correctly exactly when the destination does not start inside the source. */
  lemma {:induction false} CopiesExactlyWhen(size: nat, d: nat, s: nat, n: nat)
    requires d + n <= size && s + n <= size && (StartsInside(d, s, n) ==> s + 2 * n - 1 <= size)
    ensures (forall m: Memory :: |m| == size ==> Memcpy(m, d, s, n) == Copied(m, d, s, n)) <==> !(s < d < s + n)
  {
    if StartsInside(d, s, n) {
      var m := OneAt(size, s);
      OverlapLosesBytes(size, d, s, n, 0);
      assert Copied(m, d, s, n)[d] == m[s..s + n][0];
      assert Memcpy(m, d, s, n) != Copied(m, d, s, n);
    }
  }

  lemma {:induction false} CopiedStep<T>(m: seq<T>, d: nat, s: nat, k: nat, now: seq<T>)
    requires d + k < |m| && s + k < |m| && now == Copied(m, d, s, k) && now[s + k] == m[s + k]
    ensures now[d + k := now[s + k]] == Copied(m, d, s, k + 1)
  {
  }

  /** Copies `count` bytes from `src` to `dest`. */
  method MemCopy<T>(mem: array<T>, dest: nat, src: nat, count: nat)
    requires Readable(mem[..], dest, src, count)
    modifies mem
    ensures mem[..] == Memcpy(old(mem[..]), dest, src, count)
  {
    if dest > src && dest < src + count {
      CopyCrossed(mem, dest, src, count);
    } else {
      CopyUp(mem, dest, src, count);
    }
  }

  method CopyCrossed<T>(mem: array<T>, dest: nat, src: nat, count: nat)
    requires Readable(mem[..], dest, src, count) && StartsInside(dest, src, count)
    modifies mem
    ensures mem[..] == Crossed(old(mem[..]), dest, src, count, count)
  {
    ghost var m := mem[..];
    var d, s, n := dest + count - 1, src + count - 1, count;
    while n > 0
      invariant 0 <= n <= count && d == dest + n - 1 && s == src + count - 1 + (count - n)
      invariant mem[..] == Crossed(m, dest, src, count, count - n)
    {
      n := n - 1;
      mem[d] := mem[s];
      d := d - 1;
      s := s + 1;
    }
  }

  method CopyUp<T>(mem: array<T>, dest: nat, src: nat, count: nat)
    requires Readable(mem[..], dest, src, count) && !StartsInside(dest, src, count)
    modifies mem
    ensures mem[..] == Copied(old(mem[..]), dest, src, count)
  {
    ghost var m := mem[..];
    hide Copied;
    var d, s, n := dest, src, count;
    CopiedNothing(m, dest, src);
    ghost var done: nat := 0;
    while n > 0
      invariant done + n == count && d == dest + done && s == src + done
      invariant mem[..] == Copied(m, dest, src, done)
    {
      StillThere(m, dest, src, count, done);
      CopiedStep(m, dest, src, done, mem[..]);
      n := n - 1;
      mem[d] := mem[s];
      d := d + 1;
      s := s + 1;
      done := done + 1;
    }
  }

  lemma {:induction false} CopiedNothing<T>(m: seq<T>, d: nat, s: nat)
    requires d <= |m| && s <= |m|
    ensures Copied(m, d, s, 0) == m
  {
  }

  /** The next byte to copy has not been overwritten. */
  lemma {:induction false} StillThere<T>(m: seq<T>, d: nat, s: nat, n: nat, k: nat)
    requires d + n <= |m| && s + n <= |m| && !StartsInside(d, s, n) && k < n
    ensures Copied(m, d, s, k)[s + k] == m[s + k]
  {
  }
}
