/** The partition of one image axis into blocks.

    Along an axis of `total` pixels split into `n` blocks, block `index` starts at
    (index * total) / n (Python 2 floor division). The sampling code picks a pixel
    at an offset below total / n as a real quotient; the rendering code covers the
    `total / n` pixels from the start, an integer quotient. The same rules apply to
    rows (height, vertical divisions) and columns (width, horizontal divisions). */
module Blocks {
  import opened Arith

  datatype Option<T> = None | Some(value: T)

  /** First pixel of block `index`: `index * total / n`. */
  function BlockStart(index: int, total: int, n: int): int
    requires n > 0
  {
    (index * total) / n
  }

  /** Number of pixels the renderer covers in every block: `total / n`. */
  function BlockSpan(total: int, n: int): int
    requires n > 0
  {
    total / n
  }

  /** Pixel `p` lies in the rendered extent of block `index`. */
  predicate InExtent(p: int, index: int, total: int, n: int)
    requires n > 0
  {
    BlockStart(index, total, n) <= p < BlockStart(index, total, n) + BlockSpan(total, n)
  }

  /** Every rendered extent lies inside [0, total). */
  lemma ExtentFits(index: int, total: int, n: int)
    requires 0 <= index < n && total >= 0
    ensures 0 <= BlockStart(index, total, n)
    ensures BlockStart(index, total, n) + BlockSpan(total, n) <= total
  {
    var a, b, c := index * total, (index + 1) * total, n * total;
    DivSuperadditive(a, total, n);
    MulSucc(index, total);
    MulMonotone(index + 1, n, total);
    DivMonotone(b, c, n);
    MulDivCancel(n, total);
    MulMonotone(0, index, total);
    DivMonotone(0, a, n);
  }

  /** An earlier block's extent ends no later than a later block's start. */
  lemma ExtentsOrdered(i: int, j: int, total: int, n: int)
    requires 0 <= i < j < n && total >= 0
    ensures BlockStart(i, total, n) + BlockSpan(total, n) <= BlockStart(j, total, n)
  {
    DivSuperadditive(i * total, total, n);
    MulSucc(i, total);
    MulMonotone(i + 1, j, total);
    DivMonotone((i + 1) * total, j * total, n);
  }

  /** The rendered extents of two different blocks are disjoint. */
  lemma ExtentsDisjoint(p: int, i: int, j: int, total: int, n: int)
    requires 0 <= i < n && 0 <= j < n && total >= 0
    requires InExtent(p, i, total, n) && InExtent(p, j, total, n)
    ensures i == j
  {
    if i < j {
      ExtentsOrdered(i, j, total, n);
    } else if j < i {
      ExtentsOrdered(j, i, total, n);
    }
  }

  /** The first block at or after `from` whose rendered extent holds `p`. */
  function FindBlock(p: int, total: int, n: int, from: int): (b: Option<int>)
    requires n > 0 && 0 <= from <= n
    ensures b.Some? ==> from <= b.value < n && InExtent(p, b.value, total, n)
    ensures b.None? ==> forall v :: from <= v < n ==> !InExtent(p, v, total, n)
    decreases n - from
  {
    if from == n then None
    else if InExtent(p, from, total, n) then Some(from)
    else FindBlock(p, total, n, from + 1)
  }

  /** The block whose rendered extent holds pixel `p`, if any. */
  function BlockOf(p: int, total: int, n: int): Option<int>
    requires n > 0
  {
    FindBlock(p, total, n, 0)
  }

  /** `BlockOf` names block `v` exactly when `p` lies in `v`'s extent. */
  lemma BlockOfIff(p: int, v: int, total: int, n: int)
    requires 0 <= v < n && total >= 0
    ensures BlockOf(p, total, n) == Some(v) <==> InExtent(p, v, total, n)
  {
    var b := BlockOf(p, total, n);
    if InExtent(p, v, total, n) {
      assert b.Some?;
      ExtentsDisjoint(p, b.value, v, total, n);
    }
  }

  /** With uneven division, pixels in the middle of an axis can belong to no
      extent: five rows in three blocks give extents [0,1), [1,2) and [3,4). */
  lemma InteriorPixelUncovered()
    ensures BlockOf(2, 5, 3).None? && BlockOf(4, 5, 3).None?
    ensures BlockOf(3, 5, 3) == Some(2)
  {
    assert BlockStart(1, 5, 3) == 1 && BlockStart(2, 5, 3) == 3;
  }

  /** The randomised sample coordinate of block `index`:
      `int(index * total / n + math.floor(u * total / n))`, with `u` the value
      returned by `random.random()`. */
  function SampleCoord(index: int, u: real, total: int, n: int): (p: int)
    requires 0 <= index < n && total >= 1
    requires 0.0 <= u < 1.0
    ensures BlockStart(index, total, n) <= p < total
    ensures p <= BlockStart(index + 1, total, n)
  {
    SampleCoordBounds(index, u, total, n);
    Truncate(BlockStart(index, total, n) as real + (u * total as real / n as real).Floor as real)
  }

  lemma SampleCoordBounds(index: int, u: real, total: int, n: int)
    requires 0 <= index < n && total >= 1
    requires 0.0 <= u < 1.0
    ensures var p := Truncate(BlockStart(index, total, n) as real + (u * total as real / n as real).Floor as real);
      BlockStart(index, total, n) <= p < total && p <= BlockStart(index + 1, total, n)
  {
    var x := (index * total) as real / n as real;
    var y := u * total as real / n as real;
    var z := ((index + 1) * total) as real / n as real;
    DivIsFloor(index * total, n);
    DivIsFloor((index + 1) * total, n);
    SampleBelowNextStart(index, u, total, n);
    NextStartWithinTotal(index, total, n);
    MulMonotone(0, index, total);
    NonNegativeQuotient((index * total) as real, n as real);
    NonNegativeQuotient(u * total as real, n as real);
    FloorSumBounds(x, y, z, total);
  }

  lemma NonNegativeQuotient(a: real, m: real)
    requires 0.0 <= a && m > 0.0
    ensures 0.0 <= a / m
  {
  }

  /** The floors of two non-negative reals whose sum lies below z <= t. */
  lemma FloorSumBounds(x: real, y: real, z: real, t: int)
    requires 0.0 <= x && 0.0 <= y && x + y < z <= t as real
    ensures 0 <= y.Floor
    ensures x.Floor + y.Floor <= (x + y).Floor <= z.Floor
    ensures (x + y).Floor < t
  {
  }

  /** index * total / n + u * total / n < (index + 1) * total / n, as reals. */
  lemma SampleBelowNextStart(index: int, u: real, total: int, n: int)
    requires 0 <= index < n && total >= 1
    requires 0.0 <= u < 1.0
    ensures (index * total) as real / n as real + u * total as real / n as real
            < ((index + 1) * total) as real / n as real
  {
    QuotientsBelow(index as real, u, total as real, n as real);
    CastMul(index, total);
    CastMul(index + 1, total);
  }

  lemma QuotientsBelow(i: real, u: real, t: real, m: real)
    requires 0.0 <= u < 1.0 && t > 0.0 && m > 0.0
    ensures i * t / m + u * t / m < (i * t + t) / m
  {
    FractionBelow(u, t);
    DivStrictMonotone(i * t + u * t, i * t + t, m);
  }

  /** (index + 1) * total / n <= total, as reals. */
  lemma NextStartWithinTotal(index: int, total: int, n: int)
    requires 0 <= index < n && total >= 1
    ensures ((index + 1) * total) as real / n as real <= total as real
  {
    MulMonotone(index + 1, n, total);
    CastMul(n, total);
    QuotientAtMost(((index + 1) * total) as real, total as real, n as real);
  }

  lemma QuotientAtMost(a: real, b: real, m: real)
    requires m > 0.0 && a <= m * b
    ensures a / m <= b
  {
    assert (a / m) * m == a;
    MulLeCancel(a / m, b, m);
  }

  /** A sample of block `index` can land on the first pixel of block
      `index + 1`: with five rows in two blocks and a draw of 0.9, block 0's
      sample row is 2, which is where block 1's extent starts. */
  lemma SampleMayReachNextBlock()
    ensures SampleCoord(0, 0.9, 5, 2) == BlockStart(1, 5, 2) == 2
    ensures !InExtent(SampleCoord(0, 0.9, 5, 2), 0, 5, 2)
  {
    assert 0.9 * 5.0 / 2.0 == 2.25;
  }
}
