/** The rendering pass of `generate_motion_heatmap`: every block's deviation from
    the mean heatmap intensity, scaled by the colour intensity factor, is added to
    the red channel and subtracted from the blue channel of the pixels in the
    block's rendered extent, each result clipped to [0, 255]. */
module Render {
  import opened Arith
  import opened Color
  import opened Blocks

  /** `g` has `rows` rows of `cols` entries each. */
  predicate IsGrid(g: seq<seq<real>>, rows: int, cols: int) {
    |g| == rows && forall v :: 0 <= v < |g| ==> |g[v]| == cols
  }

  function RowSum(s: seq<real>): real {
    if s == [] then 0.0 else s[0] + RowSum(s[1..])
  }

  function GridSum(g: seq<seq<real>>): real {
    if g == [] then 0.0 else RowSum(g[0]) + GridSum(g[1..])
  }

  /** `np.mean(heatmap)`: the mean over all nv * nh entries. */
  function GridMean(g: seq<seq<real>>, nv: int, nh: int): real
    requires nv >= 1 && nh >= 1 && IsGrid(g, nv, nh)
  {
    GridSum(g) / (nv * nh) as real
  }

  /** The offset of block (v, h): `color_intensity_factor * (heatmap[v][h] - mean)`. */
  function BlockOffset(hm: seq<seq<real>>, factor: real, v: int, h: int, nv: int, nh: int): real
    requires nv >= 1 && nh >= 1 && IsGrid(hm, nv, nh)
    requires 0 <= v < nv && 0 <= h < nh
  {
    factor * (hm[v][h] - GridMean(hm, nv, nh))
  }

  /** The grid of all block offsets. */
  function OffsetGrid(hm: seq<seq<real>>, factor: real, nv: int, nh: int): (g: seq<seq<real>>)
    requires nv >= 1 && nh >= 1 && IsGrid(hm, nv, nh)
    ensures IsGrid(g, nv, nh)
  {
    seq(nv, v requires 0 <= v < nv =>
      seq(nh, h requires 0 <= h < nh => BlockOffset(hm, factor, v, h, nv, nh)))
  }

  /** What one pixel update does to channel `ch` of a covered pixel: channel 2
      (red) gets `clip(x + offset)`, channel 0 (blue) gets `clip(x - offset)`,
      channel 1 (green) is left alone. */
  function Tint(x: real, ch: int, offset: real): real {
    if ch == 2 then ClipRgb(x + offset) as real
    else if ch == 0 then ClipRgb(x - offset) as real
    else x
  }

  /** The rendered value of channel `ch` at pixel (r, c) whose base value is `x`:
      tinted by the offset of the block whose extents hold r and c, unchanged when
      no block covers the pixel. */
  function RenderedValue(x: real, r: int, c: int, ch: int, height: int, width: int,
                         hm: seq<seq<real>>, factor: real, nv: int, nh: int): real
    requires nv >= 1 && nh >= 1 && IsGrid(hm, nv, nh)
  {
    match (BlockOf(r, height, nv), BlockOf(c, width, nh))
    case (Some(v), Some(h)) => Tint(x, ch, BlockOffset(hm, factor, v, h, nv, nh))
    case _ => x
  }

  /** One pixel of the rendering loop (`motion_heatmap.py` lines 111-112). */
  method TintPixel(img: array3<real>, row: int, col: int, offset: real)
    requires 0 <= row < img.Length0 && 0 <= col < img.Length1 && img.Length2 == 3
    modifies img
    ensures forall r, c, ch :: 0 <= r < img.Length0 && 0 <= c < img.Length1 && 0 <= ch < 3 ==>
      img[r, c, ch] == if r == row && c == col then Tint(old(img[r, c, ch]), ch, offset) else old(img[r, c, ch])
  {
    img[row, col, 2] := ClipRgb(img[row, col, 2] + offset) as real;
    img[row, col, 0] := ClipRgb(img[row, col, 0] - offset) as real;
  }

  /** The innermost loop (`motion_heatmap.py` lines 106-112) for one pixel row of a block:
      tints columns cs .. cs + colSpan - 1 of row `row`. */
  method RenderBlockRow(img: array3<real>, row: int, cs: int, colSpan: int, offset: real)
    requires 0 <= row < img.Length0 && 0 <= cs && 0 <= colSpan && cs + colSpan <= img.Length1
    requires img.Length2 == 3
    modifies img
    ensures forall r, c, ch :: 0 <= r < img.Length0 && 0 <= c < img.Length1 && 0 <= ch < 3 ==>
      img[r, c, ch] == if r == row && cs <= c < cs + colSpan
                       then Tint(old(img[r, c, ch]), ch, offset) else old(img[r, c, ch])
  {
    var j := 0;
    while j < colSpan
      invariant 0 <= j <= colSpan
      invariant forall r, c, ch :: 0 <= r < img.Length0 && 0 <= c < img.Length1 && 0 <= ch < 3 ==>
        img[r, c, ch] == if r == row && cs <= c < cs + j
                         then Tint(old(img[r, c, ch]), ch, offset) else old(img[r, c, ch])
    {
      TintPixel(img, row, cs + j, offset);
      j := j + 1;
    }
  }

  /** The two middle loops (`motion_heatmap.py` lines 106-112) for one block, given its
      first row `rs`, first column `cs` and its spans: tints the rectangle
      [rs, rs + rowSpan) x [cs, cs + colSpan) and nothing else. */
  method RenderRect(img: array3<real>, rs: int, rowSpan: int, cs: int, colSpan: int, offset: real)
    requires 0 <= rs && 0 <= rowSpan && rs + rowSpan <= img.Length0
    requires 0 <= cs && 0 <= colSpan && cs + colSpan <= img.Length1 && img.Length2 == 3
    modifies img
    ensures forall r, c, ch :: 0 <= r < img.Length0 && 0 <= c < img.Length1 && 0 <= ch < 3 ==>
      img[r, c, ch] == if rs <= r < rs + rowSpan && cs <= c < cs + colSpan
                       then Tint(old(img[r, c, ch]), ch, offset) else old(img[r, c, ch])
  {
    var i := 0;
    while i < rowSpan
      invariant 0 <= i <= rowSpan
      invariant forall r, c, ch :: 0 <= r < img.Length0 && 0 <= c < img.Length1 && 0 <= ch < 3 ==>
        img[r, c, ch] == if rs <= r < rs + i && cs <= c < cs + colSpan
                         then Tint(old(img[r, c, ch]), ch, offset) else old(img[r, c, ch])
    {
      RenderBlockRow(img, rs + i, cs, colSpan, offset);
      i := i + 1;
    }
  }

  /** One block of the rendering loop (`motion_heatmap.py` lines 104-112): tints the pixels of
      block (v, h)'s extent and nothing else. Rows and columns are those of line
      107-108: `v * height / nv + i` and `h * width / nh + j`. */
  method RenderBlock(img: array3<real>, v: int, h: int, offset: real, nv: int, nh: int)
    requires 0 <= v < nv && 0 <= h < nh && img.Length2 == 3
    modifies img
    ensures forall r, c, ch :: 0 <= r < img.Length0 && 0 <= c < img.Length1 && 0 <= ch < 3 ==>
      img[r, c, ch] == if InExtent(r, v, img.Length0, nv) && InExtent(c, h, img.Length1, nh)
                       then Tint(old(img[r, c, ch]), ch, offset) else old(img[r, c, ch])
  {
    ExtentFits(v, img.Length0, nv);
    ExtentFits(h, img.Length1, nh);
    RenderRect(img, BlockStart(v, img.Length0, nv), BlockSpan(img.Length0, nv),
               BlockStart(h, img.Length1, nh), BlockSpan(img.Length1, nh), offset);
  }

  /** Pixel (r, c) belongs to a block that comes before (v, h) in the loop order. */
  predicate RenderedBefore(r: int, c: int, v: int, h: int, height: int, width: int, nv: int, nh: int)
    requires nv >= 1 && nh >= 1
  {
    match (BlockOf(r, height, nv), BlockOf(c, width, nh))
    case (Some(bv), Some(bh)) => bv < v || (bv == v && bh < h)
    case _ => false
  }

  /** Rendering block (v, h) moves exactly the pixels of its extent into the
      rendered part, and tints them with that block's offset. */
  lemma RenderedBeforeStep(x: real, r: int, c: int, ch: int, v: int, h: int, height: int, width: int,
                           hm: seq<seq<real>>, factor: real, nv: int, nh: int)
    requires 0 <= v < nv && 0 <= h < nh && IsGrid(hm, nv, nh) && height >= 0 && width >= 0
    ensures RenderedBefore(r, c, v, h + 1, height, width, nv, nh)
            <==> RenderedBefore(r, c, v, h, height, width, nv, nh)
                 || (InExtent(r, v, height, nv) && InExtent(c, h, width, nh))
    ensures InExtent(r, v, height, nv) && InExtent(c, h, width, nh) ==>
            !RenderedBefore(r, c, v, h, height, width, nv, nh)
            && RenderedValue(x, r, c, ch, height, width, hm, factor, nv, nh)
               == Tint(x, ch, BlockOffset(hm, factor, v, h, nv, nh))
  {
    BlockOfIff(r, v, height, nv);
    BlockOfIff(c, h, width, nh);
  }

  /** Finishing a row of blocks is starting the next one. */
  lemma RenderedBeforeNextRow(r: int, c: int, v: int, height: int, width: int, nv: int, nh: int)
    requires nv >= 1 && nh >= 1
    ensures RenderedBefore(r, c, v, nh, height, width, nv, nh) <==> RenderedBefore(r, c, v + 1, 0, height, width, nv, nh)
  {
  }

  /** A pixel outside every rendered block keeps its value. */
  lemma NotRenderedUnchanged(x: real, r: int, c: int, ch: int, height: int, width: int,
                             hm: seq<seq<real>>, factor: real, nv: int, nh: int)
    requires nv >= 1 && nh >= 1 && IsGrid(hm, nv, nh)
    requires !RenderedBefore(r, c, nv, 0, height, width, nv, nh)
    ensures RenderedValue(x, r, c, ch, height, width, hm, factor, nv, nh) == x
  {
  }

  /** The four nested loops of `generate_motion_heatmap`, applied to `img` in place:
      every channel of every pixel ends up as `RenderedValue` of its old value. */
  method RenderInPlace(img: array3<real>, hm: seq<seq<real>>, factor: real, nv: int, nh: int)
    requires nv >= 1 && nh >= 1 && IsGrid(hm, nv, nh) && img.Length2 == 3
    modifies img
    ensures forall r, c, ch :: 0 <= r < img.Length0 && 0 <= c < img.Length1 && 0 <= ch < 3 ==>
      img[r, c, ch] == RenderedValue(old(img[r, c, ch]), r, c, ch, img.Length0, img.Length1, hm, factor, nv, nh)
  {
    var height, width := img.Length0, img.Length1;
    var meanStdev := GridMean(hm, nv, nh);
    var v := 0;
    while v < nv
      invariant 0 <= v <= nv
      invariant forall r, c, ch :: 0 <= r < height && 0 <= c < width && 0 <= ch < 3 ==>
        img[r, c, ch] == if RenderedBefore(r, c, v, 0, height, width, nv, nh)
                         then RenderedValue(old(img[r, c, ch]), r, c, ch, height, width, hm, factor, nv, nh)
                         else old(img[r, c, ch])
    {
      var h := 0;
      while h < nh
        invariant 0 <= h <= nh
        invariant forall r, c, ch :: 0 <= r < height && 0 <= c < width && 0 <= ch < 3 ==>
          img[r, c, ch] == if RenderedBefore(r, c, v, h, height, width, nv, nh)
                           then RenderedValue(old(img[r, c, ch]), r, c, ch, height, width, hm, factor, nv, nh)
                           else old(img[r, c, ch])
      {
        var offset := factor * (hm[v][h] - meanStdev);
        assert offset == BlockOffset(hm, factor, v, h, nv, nh);
        label L:
        RenderBlock(img, v, h, offset, nv, nh);
        forall r, c, ch | 0 <= r < height && 0 <= c < width && 0 <= ch < 3
          ensures img[r, c, ch] == if RenderedBefore(r, c, v, h + 1, height, width, nv, nh)
                                   then RenderedValue(old(img[r, c, ch]), r, c, ch, height, width, hm, factor, nv, nh)
                                   else old(img[r, c, ch])
        {
          RenderedBeforeStep(old(img[r, c, ch]), r, c, ch, v, h, height, width, hm, factor, nv, nh);
        }
        h := h + 1;
      }
      forall r, c | 0 <= r < height && 0 <= c < width
        ensures RenderedBefore(r, c, v, nh, height, width, nv, nh) <==> RenderedBefore(r, c, v + 1, 0, height, width, nv, nh)
      {
        RenderedBeforeNextRow(r, c, v, height, width, nv, nh);
      }
      v := v + 1;
    }
    forall r, c, ch | 0 <= r < height && 0 <= c < width && 0 <= ch < 3
      ensures !RenderedBefore(r, c, nv, 0, height, width, nv, nh) ==>
              RenderedValue(old(img[r, c, ch]), r, c, ch, height, width, hm, factor, nv, nh) == old(img[r, c, ch])
    {
      if !RenderedBefore(r, c, nv, 0, height, width, nv, nh) {
        NotRenderedUnchanged(old(img[r, c, ch]), r, c, ch, height, width, hm, factor, nv, nh);
      }
    }
  }

  /** Channel values at a covered pixel: red gets the block's offset added, blue
      gets it subtracted, each clipped; green keeps its value. */
  lemma RenderedCovered(x: real, r: int, c: int, ch: int, height: int, width: int,
                        hm: seq<seq<real>>, factor: real, nv: int, nh: int, v: int, h: int)
    requires 0 <= v < nv && 0 <= h < nh && IsGrid(hm, nv, nh) && height >= 0 && width >= 0
    requires InExtent(r, v, height, nv) && InExtent(c, h, width, nh)
    ensures ch == 2 ==> RenderedValue(x, r, c, ch, height, width, hm, factor, nv, nh)
                        == ClipRgb(x + BlockOffset(hm, factor, v, h, nv, nh)) as real
    ensures ch == 0 ==> RenderedValue(x, r, c, ch, height, width, hm, factor, nv, nh)
                        == ClipRgb(x - BlockOffset(hm, factor, v, h, nv, nh)) as real
    ensures ch == 1 ==> RenderedValue(x, r, c, ch, height, width, hm, factor, nv, nh) == x
  {
    BlockOfIff(r, v, height, nv);
    BlockOfIff(c, h, width, nh);
  }

  /** A pixel whose row or column lies in no block's extent keeps every channel. */
  lemma RenderedUncovered(x: real, r: int, c: int, ch: int, height: int, width: int,
                          hm: seq<seq<real>>, factor: real, nv: int, nh: int)
    requires nv >= 1 && nh >= 1 && IsGrid(hm, nv, nh)
    requires (forall v :: 0 <= v < nv ==> !InExtent(r, v, height, nv))
             || (forall h :: 0 <= h < nh ==> !InExtent(c, h, width, nh))
    ensures RenderedValue(x, r, c, ch, height, width, hm, factor, nv, nh) == x
  {
  }

  /** Rendering never changes the green channel. */
  lemma RenderedGreenUnchanged(x: real, r: int, c: int, height: int, width: int,
                               hm: seq<seq<real>>, factor: real, nv: int, nh: int)
    requires nv >= 1 && nh >= 1 && IsGrid(hm, nv, nh)
    ensures RenderedValue(x, r, c, 1, height, width, hm, factor, nv, nh) == x
  {
  }

  /** With a colour intensity factor of 0, an 8-bit integer channel value is
      rendered unchanged. */
  lemma ZeroFactorKeepsBytes(n: int, r: int, c: int, ch: int, height: int, width: int,
                             hm: seq<seq<real>>, nv: int, nh: int)
    requires nv >= 1 && nh >= 1 && IsGrid(hm, nv, nh) && IsByte(n)
    ensures RenderedValue(n as real, r, c, ch, height, width, hm, 0.0, nv, nh) == n as real
  {
    ClipRgbIdentity(n);
  }

  /** ... but a fractional value, as the average image can hold, is truncated at
      covered pixels even with a factor of 0: 100.5 in the red channel becomes 100. */
  lemma ZeroFactorTruncatesFractions(r: int, c: int, height: int, width: int,
                                     hm: seq<seq<real>>, nv: int, nh: int, v: int, h: int)
    requires 0 <= v < nv && 0 <= h < nh && IsGrid(hm, nv, nh) && height >= 0 && width >= 0
    requires InExtent(r, v, height, nv) && InExtent(c, h, width, nh)
    ensures RenderedValue(100.5, r, c, 2, height, width, hm, 0.0, nv, nh) == 100.0
    ensures RenderedValue(100.5, r, c, 0, height, width, hm, 0.0, nv, nh) == 100.0
  {
    RenderedCovered(100.5, r, c, 2, height, width, hm, 0.0, nv, nh, v, h);
    RenderedCovered(100.5, r, c, 0, height, width, hm, 0.0, nv, nh, v, h);
  }

  /** A negative offset makes an 8-bit pixel no redder and no less blue; a
      positive one the other way round. */
  lemma TintSign(n: int, offset: real)
    requires IsByte(n)
    ensures offset < 0.0 ==> Tint(n as real, 0, offset) >= n as real && Tint(n as real, 2, offset) <= n as real
    ensures offset > 0.0 ==> Tint(n as real, 0, offset) <= n as real && Tint(n as real, 2, offset) >= n as real
  {
    if offset < 0.0 {
      ClipShiftNegative(n, offset);
    } else if offset > 0.0 {
      ClipShiftPositive(n, offset);
    }
  }

  /** A block less intense than the mean (for a positive factor) renders no
      redder and no less blue than its 8-bit base; a more intense block the
      other way round. */
  lemma OffsetSignTints(n: int, r: int, c: int, height: int, width: int,
                        hm: seq<seq<real>>, factor: real, nv: int, nh: int, v: int, h: int)
    requires 0 <= v < nv && 0 <= h < nh && IsGrid(hm, nv, nh) && height >= 0 && width >= 0
    requires InExtent(r, v, height, nv) && InExtent(c, h, width, nh)
    requires IsByte(n) && factor > 0.0
    ensures hm[v][h] < GridMean(hm, nv, nh) ==>
              RenderedValue(n as real, r, c, 0, height, width, hm, factor, nv, nh) >= n as real
              && RenderedValue(n as real, r, c, 2, height, width, hm, factor, nv, nh) <= n as real
    ensures hm[v][h] > GridMean(hm, nv, nh) ==>
              RenderedValue(n as real, r, c, 0, height, width, hm, factor, nv, nh) <= n as real
              && RenderedValue(n as real, r, c, 2, height, width, hm, factor, nv, nh) >= n as real
  {
    BlockOfIff(r, v, height, nv);
    BlockOfIff(c, h, width, nh);
    BlockOffsetSign(hm, factor, v, h, nv, nh);
    TintSign(n, BlockOffset(hm, factor, v, h, nv, nh));
  }

  /** For a positive factor the offset has the sign of the block's deviation
      from the mean. */
  lemma BlockOffsetSign(hm: seq<seq<real>>, factor: real, v: int, h: int, nv: int, nh: int)
    requires 0 <= v < nv && 0 <= h < nh && IsGrid(hm, nv, nh) && factor > 0.0
    ensures hm[v][h] < GridMean(hm, nv, nh) ==> BlockOffset(hm, factor, v, h, nv, nh) < 0.0
    ensures hm[v][h] > GridMean(hm, nv, nh) ==> BlockOffset(hm, factor, v, h, nv, nh) > 0.0
  {
    ScaleSign(factor, hm[v][h] - GridMean(hm, nv, nh));
  }

  /** `m` added up `n` times, without a multiplication. */
  function Repeat(n: nat, m: real): real {
    if n == 0 then 0.0 else Repeat(n - 1, m) + m
  }

  lemma {:induction false} RepeatIsProduct(n: nat, m: real)
    ensures Repeat(n, m) == n as real * m
  {
    if n > 0 {
      RepeatIsProduct(n - 1, m);
      assert (n - 1) as real * m + m == n as real * m;
    }
  }

  /** Row `t` is row `s` with `m` subtracted from every entry. */
  predicate ShiftedRow(s: seq<real>, t: seq<real>, m: real) {
    |s| == |t| && forall i :: 0 <= i < |s| ==> t[i] == s[i] - m
  }

  lemma {:induction false} RowSumShift(s: seq<real>, t: seq<real>, m: real)
    requires ShiftedRow(s, t, m)
    ensures RowSum(t) == RowSum(s) - Repeat(|s|, m)
  {
    if s != [] {
      assert ShiftedRow(s[1..], t[1..], m);
      RowSumShift(s[1..], t[1..], m);
    }
  }

  /** Subtracting `m` from every entry of a grid of `cols`-entry rows lowers its
      sum by `m` once per entry. */
  lemma {:induction false} GridSumShift(g: seq<seq<real>>, t: seq<seq<real>>, m: real, cols: nat)
    requires IsGrid(g, |g|, cols) && |t| == |g|
    requires forall v :: 0 <= v < |g| ==> ShiftedRow(g[v], t[v], m)
    ensures GridSum(t) == GridSum(g) - Repeat(|g|, Repeat(cols, m))
  {
    if g != [] {
      RowSumShift(g[0], t[0], m);
      assert forall v :: 0 <= v < |g| - 1 ==> g[1..][v] == g[v + 1] && t[1..][v] == t[v + 1];
      GridSumShift(g[1..], t[1..], m, cols);
    }
  }

  function Plus(a: real, b: real): real { a + b }

  /** `F` maps zero to zero and distributes over addition. The trigger `Plus`
      keeps the quantifier from firing on every pair of applications of `F`. */
  ghost predicate Additive(F: real -> real) {
    F(0.0) == 0.0 && forall a, b {:trigger Plus(a, b)} :: F(Plus(a, b)) == F(a) + F(b)
  }

  /** Row `t` is row `s` with `F` applied to every entry. */
  predicate MappedRow(s: seq<real>, t: seq<real>, F: real -> real) {
    |s| == |t| && forall i :: 0 <= i < |s| ==> t[i] == F(s[i])
  }

  lemma {:induction false} RowSumMap(s: seq<real>, t: seq<real>, F: real -> real)
    requires Additive(F) && MappedRow(s, t, F)
    ensures RowSum(t) == F(RowSum(s))
  {
    if s != [] {
      assert MappedRow(s[1..], t[1..], F);
      RowSumMap(s[1..], t[1..], F);
      assert F(Plus(s[0], RowSum(s[1..]))) == F(s[0]) + F(RowSum(s[1..]));
    }
  }

  /** Applying an additive map to every entry of a grid applies it to the sum. */
  lemma {:induction false} GridSumMap(g: seq<seq<real>>, t: seq<seq<real>>, F: real -> real)
    requires Additive(F) && |t| == |g|
    requires forall v :: 0 <= v < |g| ==> MappedRow(g[v], t[v], F)
    ensures GridSum(t) == F(GridSum(g))
  {
    if g != [] {
      RowSumMap(g[0], t[0], F);
      assert forall v :: 0 <= v < |g| - 1 ==> g[1..][v] == g[v + 1] && t[1..][v] == t[v + 1];
      GridSumMap(g[1..], t[1..], F);
      assert F(Plus(RowSum(g[0]), GridSum(g[1..]))) == F(RowSum(g[0])) + F(GridSum(g[1..]));
    }
  }

  /** Multiplication by a constant is additive. */
  lemma ScalingIsAdditive(f: real)
    ensures Additive(x => f * x)
  {
    forall a, b ensures f * Plus(a, b) == f * a + f * b {
      Distribute(f, a, b);
    }
  }

  lemma Distribute(f: real, a: real, b: real)
    ensures f * a + f * b == f * (a + b)
  {
  }

  /** Subtracting its own mean from every entry leaves a grid summing to zero. */
  lemma CenteredSumIsZero(hm: seq<seq<real>>, d: seq<seq<real>>, nv: int, nh: int)
    requires nv >= 1 && nh >= 1 && IsGrid(hm, nv, nh) && |d| == nv
    requires forall v :: 0 <= v < nv ==> ShiftedRow(hm[v], d[v], GridMean(hm, nv, nh))
    ensures GridSum(d) == 0.0
  {
    GridSumShift(hm, d, GridMean(hm, nv, nh), nh);
    RepeatedMean(GridSum(hm), nv, nh);
  }

  /** Adding up s / (nv * nh) nh times, and that nv times, gives back s. */
  lemma RepeatedMean(s: real, nv: int, nh: int)
    requires nv >= 1 && nh >= 1
    ensures Repeat(nv, Repeat(nh, s / (nv * nh) as real)) == s
  {
    var m := s / (nv * nh) as real;
    RepeatIsProduct(nh, m);
    RepeatIsProduct(nv, Repeat(nh, m));
    CastMul(nv, nh);
    var count := (nv * nh) as real;
    assert nv as real * (nh as real * m) == count * m;
  }

  /** The block offsets sum to zero: the mean is the heatmap's own mean. */
  lemma OffsetsSumToZero(hm: seq<seq<real>>, factor: real, nv: int, nh: int)
    requires nv >= 1 && nh >= 1 && IsGrid(hm, nv, nh)
    ensures GridSum(OffsetGrid(hm, factor, nv, nh)) == 0.0
  {
    var mean := GridMean(hm, nv, nh);
    var offsets := OffsetGrid(hm, factor, nv, nh);
    var d := seq(nv, v requires 0 <= v < nv => seq(nh, h requires 0 <= h < nh => hm[v][h] - mean));
    var scale := x => factor * x;
    forall v | 0 <= v < nv ensures ShiftedRow(hm[v], d[v], mean) && MappedRow(d[v], offsets[v], scale) {
    }
    CenteredSumIsZero(hm, d, nv, nh);
    ScalingIsAdditive(factor);
    GridSumMap(d, offsets, scale);
  }

  /** A heatmap whose entries all equal `k` has mean `k`, so every offset is 0. */
  lemma UniformHeatmapHasZeroOffsets(hm: seq<seq<real>>, factor: real, nv: int, nh: int, k: real)
    requires nv >= 1 && nh >= 1 && IsGrid(hm, nv, nh)
    requires forall v, h :: 0 <= v < nv && 0 <= h < nh ==> hm[v][h] == k
    ensures GridMean(hm, nv, nh) == k
    ensures forall v, h :: 0 <= v < nv && 0 <= h < nh ==> BlockOffset(hm, factor, v, h, nv, nh) == 0.0
  {
    var zeros := seq(nv, v => seq(nh, h => 0.0));
    forall v | 0 <= v < nv ensures ShiftedRow(hm[v], zeros[v], k) {
    }
    GridSumShift(hm, zeros, k, nh);
    ZeroGridSum(zeros, nh);
    RepeatIsProduct(nh, k);
    RepeatIsProduct(nv, Repeat(nh, k));
    CastMul(nv, nh);
    var count := (nv * nh) as real;
    assert nv as real * (nh as real * k) == count * k;
    assert GridSum(hm) == count * k;
    MulDivCancelReal(count, k);
  }

  lemma {:induction false} ZeroGridSum(g: seq<seq<real>>, cols: int)
    requires IsGrid(g, |g|, cols)
    requires forall v, h :: 0 <= v < |g| && 0 <= h < cols ==> g[v][h] == 0.0
    ensures GridSum(g) == 0.0
  {
    if g != [] {
      ZeroRowSum(g[0]);
      ZeroGridSum(g[1..], cols);
    }
  }

  lemma {:induction false} ZeroRowSum(s: seq<real>)
    requires forall i :: 0 <= i < |s| ==> s[i] == 0.0
    ensures RowSum(s) == 0.0
  {
    if s != [] {
      ZeroRowSum(s[1..]);
    }
  }
}
