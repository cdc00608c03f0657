/** How the ROCm allocator cuts an allocation into chunks, in 64-bit unsigned arithmetic. */
module RocmChunks {
  import opened Common

  const TWO64: nat := 0x1_0000_0000_0000_0000
  const MB: nat := 1024 * 1024
  const DEFAULT_CHUNK_SIZE: nat := 256 * MB

  function Wrap(x: nat): (r: nat)
    ensures r < TWO64
    ensures x < TWO64 ==> r == x
    ensures TWO64 <= x < 2 * TWO64 ==> r == x - TWO64
  {
    x % TWO64
  }

  /** The last multiple of g up to x. */
  function RoundDown(x: nat, g: nat): (r: nat)
    requires g > 0
    ensures r <= x < r + g
  {
    DivideBounds(x, g);
    x / g * g
  }

  /** The next multiple of g, as a number. */
  function RoundUp(x: nat, g: nat): nat
    requires g > 0
  {
    RoundDown(x + g - 1, g)
  }

  /** The next multiple of g, as the code computes it. */
  function RoundUp64(x: nat, g: nat): nat
    requires 0 < g < TWO64
  {
    Wrap(RoundDown(Wrap(x + g - 1), g))
  }

  /** The number of g-sized pieces that cover x, as the code computes it. */
  function Pieces64(x: nat, g: nat): nat
    requires 0 < g < TWO64
  {
    Wrap(x + g - 1) / g
  }

  lemma DivideBounds(x: nat, g: nat)
    requires g > 0
    ensures x / g * g <= x < x / g * g + g
    ensures x % g == x - x / g * g
  {
  }

  lemma SmallQuotient(x: nat, g: nat)
    requires x < g
    ensures x / g == 0
  {
  }

  lemma RoundDownSmall(x: nat, g: nat)
    requires x < g
    ensures RoundDown(x, g) == 0
  {
    SmallQuotient(x, g);
  }

  lemma MultiplesOrdered(k: int, m: int, g: nat)
    requires k <= m
    ensures k * g <= m * g
  {
    assert (m - k) * g >= 0;
  }

  lemma NextMultiple(k: int, m: int, g: nat)
    requires k < m
    ensures k * g + g <= m * g
  {
    assert (m - k - 1) * g >= 0;
  }

  /** Rounding up gives the least multiple of the granularity that covers the request. */
  lemma RoundUpIsLeast(x: nat, g: nat, k: nat)
    requires g > 0
    ensures x <= RoundUp(x, g) < x + g && RoundUp(x, g) % g == 0
    ensures x <= k * g ==> RoundUp(x, g) <= k * g
  {
    var q := (x + g - 1) / g;
    DivideBounds(x + g - 1, g);
    MultipleHasNoRemainder(q, g);
    if k < q { NextMultiple(k, q, g); } else { MultiplesOrdered(q, k, g); }
  }

  lemma MultipleHasNoRemainder(q: nat, g: nat)
    requires g > 0
    ensures (q * g) % g == 0 && (q * g) / g == q
  {
    DivideBounds(q * g, g);
    var d := q * g / g;
    if d < q { NextMultiple(d, q, g); }
    if q < d { NextMultiple(q, d, g); }
  }

  /** The code rounds up correctly exactly when the sum does not wrap; when it wraps, the
      result is zero. */
  lemma RoundUpWraps(x: nat, g: nat)
    requires x < TWO64 && 0 < g < TWO64
    ensures RoundUp64(x, g) == if x + g - 1 < TWO64 then RoundUp(x, g) else 0
    ensures RoundUp64(x, g) == RoundUp(x, g) <==> x + g - 1 < TWO64
  {
    RoundUpIsLeast(x, g, 0);
    if x + g - 1 >= TWO64 {
      RoundDownSmall(x + g - 1 - TWO64, g);
    }
  }

  lemma PiecesWrap(x: nat, g: nat)
    requires x < TWO64 && 0 < g < TWO64
    ensures Pieces64(x, g) == if x + g - 1 < TWO64 then (x + g - 1) / g else 0
  {
    if x + g - 1 >= TWO64 {
      SmallQuotient(x + g - 1 - TWO64, g);
    }
  }

  // ---------------------------------------------------------------- the configured chunk size

  /** The chunk size from the environment, where None stands for a value that is absent or
      does not parse. */
  datatype Setting = None | Megabytes(value: nat)

  function ChunkSize(setting: Setting): nat {
    match setting
    case None => DEFAULT_CHUNK_SIZE
    case Megabytes(v) => if v == 0 || v > (TWO64 - 1) / MB then DEFAULT_CHUNK_SIZE else v * MB
  }

  /** The guard keeps the conversion to bytes from wrapping: a setting whose bytes fit 64 bits is taken, and
      for any other, for none and for zero the size is 256 megabytes. */
  lemma ChunkSizeFits(setting: Setting)
    ensures 0 < ChunkSize(setting) < 0x1_0000_0000_0000_0000
    ensures ChunkSize(setting) ==
      if setting.Megabytes? && 0 < setting.value * 1048576 < 0x1_0000_0000_0000_0000 then setting.value * 1048576
      else 268435456
  {
  }

  /** It does not keep the later rounding from wrapping: the largest admitted setting gives
      a chunk size of zero, by which the code then divides. */
  lemma LargestSettingWraps()
    ensures RoundUp64(ChunkSize(Megabytes(0xFFF_FFFF_FFFF)), 2 * MB) == 0
    ensures ChunkSize(Megabytes(0xFFF_FFFF_FFFF)) == 0xFFF_FFFF_FFFF * MB
  {
    RoundUpWraps(ChunkSize(Megabytes(0xFFF_FFFF_FFFF)), 2 * MB);
  }

  // ---------------------------------------------------------------- the chunks

  /** The chunks cover `total` bytes: positive multiples of the granularity, all of them
      `chunk` bytes but perhaps the last, which is no larger. */
  ghost predicate Tiles(sizes: seq<nat>, total: nat, chunk: nat, granularity: nat)
    requires granularity > 0
  {
    && Sum(sizes) == total
    && (forall i :: 0 <= i < |sizes| ==> 0 < sizes[i] <= chunk && sizes[i] % granularity == 0)
    && (forall i :: 0 <= i < |sizes| - 1 ==> sizes[i] == chunk)
  }

  ghost predicate AllPositive(sizes: seq<nat>) {
    forall i :: 0 <= i < |sizes| ==> 0 < sizes[i]
  }

  /** The chunk arrays of an allocation of `total` bytes. */
  method ComputeChunks(total: nat, chunk: nat, granularity: nat) returns (sizes: seq<nat>)
    requires 0 < granularity && 0 < chunk < TWO64 && total < TWO64
    requires total % granularity == 0 && chunk % granularity == 0
    ensures total + chunk - 1 < TWO64 ==> Tiles(sizes, total, chunk, granularity)
    ensures total > 0 && total + chunk - 1 >= TWO64 ==> sizes == []
  {
    var numChunks := Pieces64(total, chunk);
    PiecesWrap(total, chunk);
    ghost var wraps := total + chunk - 1 >= TWO64;
    sizes := [];
    ghost var start := 0;
    for i := 0 to numChunks
      invariant |sizes| == i && start == i * chunk
      invariant forall k :: 0 <= k < i ==> 0 < sizes[k] <= chunk && sizes[k] % granularity == 0
      invariant forall k :: 0 <= k < i && k < numChunks - 1 ==> sizes[k] == chunk
      invariant Sum(sizes) == if i < numChunks || numChunks == 0 then start else total
    {
      ChunkAt(total, chunk, granularity, i, start);
      var left := total - i * chunk;
      var size := if left < chunk then left else chunk;
      SumOneMore(sizes, size);
      sizes := sizes + [size];
      start := start + chunk;
    }
    if !wraps && numChunks == 0 { DivideBounds(total + chunk - 1, chunk); }
  }

  /** Chunk i starts inside the allocation, and is the last one exactly if it reaches the end. */
  lemma ChunkAt(total: nat, chunk: nat, granularity: nat, i: nat, start: nat)
    requires 0 < granularity && 0 < chunk && total % granularity == 0 && chunk % granularity == 0
    requires i < (total + chunk - 1) / chunk && start == i * chunk
    ensures start < total && start + chunk == (i + 1) * chunk
    ensures (total - start) % granularity == 0
    ensures i + 1 < (total + chunk - 1) / chunk ==> start + chunk < total
    ensures i + 1 == (total + chunk - 1) / chunk ==> total <= start + chunk
  {
    var n := (total + chunk - 1) / chunk;
    DivideBounds(total + chunk - 1, chunk);
    NextMultiple(i, n, chunk);
    assert (i + 1) * chunk == i * chunk + chunk;
    if i + 1 < n { NextMultiple(i + 1, n, chunk); }
    DifferenceOfMultiples(total, i, chunk, granularity);
  }

  lemma DifferenceOfMultiples(total: nat, i: nat, chunk: nat, g: nat)
    requires g > 0 && total % g == 0 && chunk % g == 0 && i * chunk <= total
    ensures (total - i * chunk) % g == 0
  {
    var a, b := total / g, chunk / g;
    DivideBounds(total, g);
    DivideBounds(chunk, g);
    var m := a - i * b;
    assert total - i * chunk == a * g - i * (b * g);
    assert i * (b * g) == (i * b) * g;
    assert m * g == a * g - (i * b) * g;
    if m < 0 { NextMultiple(m, 0, g); }
    MultipleHasNoRemainder(m, g);
  }

  /** Chunks that tile an allocation are what mapping it takes: positive, and together as long as what
      is reserved. There are none exactly when nothing is. */
  lemma TilesFit(sizes: seq<nat>, total: nat, chunk: nat, granularity: nat)
    requires granularity > 0 && Tiles(sizes, total, chunk, granularity)
    ensures AllPositive(sizes) && Sum(sizes) == total
    ensures sizes == [] <==> total == 0
  {
  }

  lemma {:induction false} SumOfEqual(s: seq<nat>, x: nat)
    requires forall i :: 0 <= i < |s| ==> s[i] == x
    ensures Sum(s) == |s| * x
  {
    if s != [] {
      SumOfEqual(s[..|s| - 1], x);
      assert (|s| - 1) * x + x == |s| * x;
    }
  }

  /** There is only one way to tile: what the chunks promise says what they are. */
  lemma TilesAreEqual(a: seq<nat>, b: seq<nat>, total: nat, chunk: nat, granularity: nat)
    requires granularity > 0 && Tiles(a, total, chunk, granularity) && Tiles(b, total, chunk, granularity)
    ensures a == b
  {
    if total > 0 {
      SumOfEqual(a[..|a| - 1], chunk);
      SumOfEqual(b[..|b| - 1], chunk);
      if |a| < |b| { NextMultiple(|a| - 1, |b| - 1, chunk); }
      if |b| < |a| { NextMultiple(|b| - 1, |a| - 1, chunk); }
    }
  }

  method Align(x: nat, g: nat) returns (r: nat)
    requires x < TWO64 && 0 < g < TWO64
    ensures r == if x + g - 1 < TWO64 then RoundUp(x, g) else 0
    ensures r < TWO64 && r % g == 0
    ensures r == 0 <==> x == 0 || x + g - 1 >= TWO64
  {
    RoundUpWraps(x, g);
    RoundUpIsLeast(x, g, 0);
    r := RoundUp64(x, g);
  }

  /** An allocation's chunks, from the request to the sizes. */
  method PlanChunks(size: nat, granularity: nat, setting: Setting) returns (alignedSize: nat, ok: bool, sizes: seq<nat>)
    requires size < TWO64 && 0 < granularity < TWO64
    ensures alignedSize == if size + granularity - 1 < TWO64 then RoundUp(size, granularity) else 0
    ensures ok <==> ChunkSize(setting) + granularity - 1 < TWO64
    ensures
      var chunk := RoundUp(ChunkSize(setting), granularity);
      ok ==> if alignedSize + chunk - 1 < TWO64 then Tiles(sizes, alignedSize, chunk, granularity) else sizes == []
  {
    alignedSize := Align(size, granularity);
    ChunkSizeFits(setting);
    var chunk := Align(ChunkSize(setting), granularity);
    sizes := [];
    ok := chunk != 0;  // the code divides by it
    if ok {
      sizes := ComputeChunks(alignedSize, chunk, granularity);
    }
  }
}
