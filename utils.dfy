/** `chunk` from utils.js, as written, beside the aligned split it was meant to be. */
module Utils {

  function Min(a: int, b: int): int { if a <= b then a else b }

  /** `Math.ceil(n / d)` for natural n and positive d, counted by whole steps of d. */
  function CeilDiv(n: nat, d: nat): (r: nat)
    requires d > 0
    ensures r <= n
    decreases n
  {
    if n == 0 then 0 else if n <= d then 1 else 1 + CeilDiv(n - d, d)
  }

  /** CeilDiv is the ceiling of n / d: the least count of d-sized steps that covers n. */
  lemma {:induction false} CeilDivBounds(n: nat, d: nat)
    requires d > 0
    ensures (CeilDiv(n, d) - 1) * d < n <= CeilDiv(n, d) * d
    decreases n
  {
    if n > d {
      var c := CeilDiv(n - d, d);
      CeilDivBounds(n - d, d);
      assert CeilDiv(n, d) == c + 1;
      assert (c + 1) * d == c * d + d;
    }
  }

  lemma MulLe(a: nat, b: nat, k: nat)
    requires a <= b
    ensures a * k <= b * k
  {
  }

  /** Euclidean division has one quotient and remainder. */
  lemma DivUnique(x: nat, d: nat, q: nat, r: nat)
    requires d > 0 && r < d && x == q * d + r
    ensures x / d == q && x % d == r
  {
    var q', r' := x / d, x % d;
    assert x == q' * d + r';
    if q' < q {
      MulLe(q' + 1, q, d);
    } else if q < q' {
      MulLe(q + 1, q', d);
    }
  }

  /** Taking d off n takes one off the quotient and leaves the remainder. */
  lemma DivStep(n: nat, d: nat)
    requires 0 < d <= n
    ensures n / d == (n - d) / d + 1 && n % d == (n - d) % d
  {
    var q, r := (n - d) / d, (n - d) % d;
    assert n - d == q * d + r;
    assert n == (q + 1) * d + r;
    DivUnique(n, d, q + 1, r);
  }

  /** CeilDiv agrees with `Math.ceil(n / d)` written with floor division and remainder. */
  lemma {:induction false} CeilDivExact(n: nat, d: nat)
    requires d > 0
    ensures CeilDiv(n, d) == if n % d == 0 then n / d else n / d + 1
    decreases n
  {
    if n > d {
      CeilDivExact(n - d, d);
      DivStep(n, d);
    } else if n == d {
      DivUnique(n, d, 1, 0);
    } else if n > 0 {
      DivUnique(n, d, 0, n);
    }
  }

  lemma {:induction false} CeilDivAtMost(n: nat, d: nat)
    requires d > 0
    ensures n >= d ==> CeilDiv(n, d) <= n - d + 1
    decreases n
  {
    if n > d {
      CeilDivAtMost(n - d, d);
    }
  }

  /**
   * `chunk(iterable, chunkSize)`: one window per key of `Array(ceil(n / size))`;
   * window k is `iterable.subarray(k, k + size)`, which starts at offset k (not k * size)
   * and is clipped at the end of the input.
   */
  function Chunk<T>(xs: seq<T>, size: nat): (r: seq<seq<T>>)
    requires size > 0
    ensures |r| == CeilDiv(|xs|, size)
    ensures forall k :: 0 <= k < |r| ==> k < |xs| && r[k] == xs[k..Min(k + size, |xs|)]
  {
    seq(CeilDiv(|xs|, size), k requires 0 <= k < CeilDiv(|xs|, size) => xs[k..Min(k + size, |xs|)])
  }

  /** An empty input gives no windows. */
  lemma ChunkEmpty<T>(xs: seq<T>, size: nat)
    requires size > 0 && xs == []
    ensures Chunk(xs, size) == []
  {
  }

  /** Every window of an input at least `size` long is a full window of `size` elements. */
  lemma ChunkFullWindows<T>(xs: seq<T>, size: nat)
    requires size > 0 && |xs| >= size
    ensures forall k :: 0 <= k < |Chunk(xs, size)| ==> |Chunk(xs, size)[k]| == size
  {
    CeilDivAtMost(|xs|, size);
  }

  /** Consecutive windows overlap: window k begins at element k of the input. */
  lemma ChunkWindowStart<T>(xs: seq<T>, size: nat, k: nat)
    requires size > 0 && k < |Chunk(xs, size)|
    ensures k < |xs| && Chunk(xs, size)[k][0] == xs[k]
  {
    CeilDivAtMost(|xs|, size);
  }

  /** The split into consecutive, non-overlapping pieces of `size` that the callers mean. */
  function ChunkAligned<T>(xs: seq<T>, size: nat): (r: seq<seq<T>>)
    requires size > 0
    decreases |xs|
  {
    if xs == [] then []
    else if |xs| <= size then [xs]
    else [xs[..size]] + ChunkAligned(xs[size..], size)
  }

  function Flatten<T>(parts: seq<seq<T>>): seq<T>
  {
    if parts == [] then [] else parts[0] + Flatten(parts[1..])
  }

  /** The aligned split has ceil(n / size) pieces that concatenate back to the input. */
  lemma {:induction false} ChunkAlignedPartition<T>(xs: seq<T>, size: nat)
    requires size > 0
    ensures Flatten(ChunkAligned(xs, size)) == xs
    ensures |ChunkAligned(xs, size)| == CeilDiv(|xs|, size)
    decreases |xs|
  {
    if |xs| > size {
      ChunkAlignedPartition(xs[size..], size);
      assert xs[..size] + xs[size..] == xs;
    } else if xs != [] {
      assert xs + [] == xs;
    }
  }

  /** Two 6-byte records: `chunk` yields the window at offset 1 where the second record is at 6. */
  lemma ChunkOverlapExample()
    ensures Chunk([0, 1, 2, 3, 4, 5, 6, 7, 8, 9, 10, 11], 6) == [[0, 1, 2, 3, 4, 5], [1, 2, 3, 4, 5, 6]]
    ensures ChunkAligned([0, 1, 2, 3, 4, 5, 6, 7, 8, 9, 10, 11], 6) == [[0, 1, 2, 3, 4, 5], [6, 7, 8, 9, 10, 11]]
  {
    var xs := [0, 1, 2, 3, 4, 5, 6, 7, 8, 9, 10, 11];
    assert CeilDiv(12, 6) == 2;
    var c := Chunk(xs, 6);
    assert |c| == 2;
    assert c[0] == [0, 1, 2, 3, 4, 5] && c[1] == [1, 2, 3, 4, 5, 6];
    assert xs[6..][..6] == [6, 7, 8, 9, 10, 11];
  }
}
