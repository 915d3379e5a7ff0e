/** Decoded frames of the time-lapse and what is derived from them frame by
    frame: per-pixel channel sums behind the average image, and the brightness
    series of one sample pixel. */
module Frames {
  import opened Arith
  import opened Color

  /** A decoded colour image, row-major: `frame[row][col]` is a pixel. */
  type Frame = seq<seq<Bgr>>

  /** `f` is an 8-bit image of `height` rows and `width` columns. */
  predicate IsFrame(f: Frame, height: int, width: int) {
    && |f| == height
    && (forall r :: 0 <= r < |f| ==> |f[r]| == width)
    && (forall r, c :: 0 <= r < |f| && 0 <= c < |f[r]| ==> IsBytePixel(f[r][c]))
  }

  /** Every frame of the sequence has the given shape. */
  predicate AllFrames(fs: seq<Frame>, height: int, width: int) {
    forall k :: 0 <= k < |fs| ==> IsFrame(fs[k], height, width)
  }

  predicate InImage(r: int, c: int, height: int, width: int) {
    0 <= r < height && 0 <= c < width
  }

  /** Sum of channel `ch` at pixel (r, c) over all frames: what `average_image`
      holds after `average_image += frame` has run for each of them. */
  function ChannelSum(fs: seq<Frame>, r: int, c: int, ch: int, height: int, width: int): int
    requires AllFrames(fs, height, width) && InImage(r, c, height, width) && 0 <= ch < 3
    decreases |fs|
  {
    if fs == [] then 0
    else ChannelSum(fs[..|fs| - 1], r, c, ch, height, width) + Channel(fs[|fs| - 1][r][c], ch)
  }

  /** The channel sum over n 8-bit frames lies in [0, 255 * n]. */
  lemma {:induction false} ChannelSumBounds(fs: seq<Frame>, r: int, c: int, ch: int, height: int, width: int)
    requires AllFrames(fs, height, width) && InImage(r, c, height, width) && 0 <= ch < 3
    ensures 0 <= ChannelSum(fs, r, c, ch, height, width) <= 255 * |fs|
    decreases |fs|
  {
    if fs != [] {
      ChannelSumBounds(fs[..|fs| - 1], r, c, ch, height, width);
      assert IsBytePixel(fs[|fs| - 1][r][c]);
    }
  }

  /** The per-pixel average of a non-empty sequence of 8-bit frames is a real
      value in [0, 255]. */
  lemma AverageInByteRange(fs: seq<Frame>, r: int, c: int, ch: int, height: int, width: int)
    requires |fs| > 0
    requires AllFrames(fs, height, width) && InImage(r, c, height, width) && 0 <= ch < 3
    ensures 0.0 <= ChannelSum(fs, r, c, ch, height, width) as real / |fs| as real <= 255.0
  {
    ChannelSumBounds(fs, r, c, ch, height, width);
    QuotientInRange(ChannelSum(fs, r, c, ch, height, width), |fs|, 255);
  }

  /** When every frame has the same value at a pixel, the sum is that value times
      the number of frames, so the average is that value. */
  lemma ChannelSumOfConstant(fs: seq<Frame>, r: int, c: int, ch: int, height: int, width: int, value: int)
    requires AllFrames(fs, height, width) && InImage(r, c, height, width) && 0 <= ch < 3
    requires forall k :: 0 <= k < |fs| ==> Channel(fs[k][r][c], ch) == value
    ensures ChannelSum(fs, r, c, ch, height, width) == |fs| * value
    ensures |fs| > 0 ==> ChannelSum(fs, r, c, ch, height, width) as real / |fs| as real == value as real
  {
    ConstantSum(fs, r, c, ch, height, width, value);
    if |fs| > 0 {
      MulDivCancelCast(|fs|, value);
    }
  }

  lemma {:induction false} ConstantSum(fs: seq<Frame>, r: int, c: int, ch: int, height: int, width: int, value: int)
    requires AllFrames(fs, height, width) && InImage(r, c, height, width) && 0 <= ch < 3
    requires forall k :: 0 <= k < |fs| ==> Channel(fs[k][r][c], ch) == value
    ensures ChannelSum(fs, r, c, ch, height, width) == |fs| * value
    decreases |fs|
  {
    if fs != [] {
      var init := fs[..|fs| - 1];
      assert forall k :: 0 <= k < |init| ==> init[k] == fs[k];
      ConstantSum(init, r, c, ch, height, width, value);
      MulSucc(|init|, value);
    }
  }

  /** Adding one more frame adds its channel value to the sum. */
  lemma ChannelSumSnoc(fs: seq<Frame>, f: Frame, r: int, c: int, ch: int, height: int, width: int)
    requires AllFrames(fs, height, width) && IsFrame(f, height, width)
    requires InImage(r, c, height, width) && 0 <= ch < 3
    ensures AllFrames(fs + [f], height, width)
    ensures ChannelSum(fs + [f], r, c, ch, height, width)
            == ChannelSum(fs, r, c, ch, height, width) + Channel(f[r][c], ch)
  {
    assert (fs + [f])[..|fs|] == fs;
  }

  /** The brightness series of the sample pixel `loc`: entry k is the rounded
      channel mean of frame k at that pixel. */
  function Series(fs: seq<Frame>, loc: (int, int), height: int, width: int): (s: seq<int>)
    requires AllFrames(fs, height, width) && InImage(loc.0, loc.1, height, width)
    ensures |s| == |fs|
  {
    seq(|fs|, k requires 0 <= k < |fs| => Brightness(fs[k][loc.0][loc.1]))
  }

  /** Every entry of a series of 8-bit frames is the integer (c0 + c1 + c2 + 1) / 3
      of its frame's pixel, and lies in [0, 255]. */
  lemma SeriesEntries(fs: seq<Frame>, loc: (int, int), height: int, width: int, k: int)
    requires AllFrames(fs, height, width) && InImage(loc.0, loc.1, height, width)
    requires 0 <= k < |fs|
    ensures var p := fs[k][loc.0][loc.1];
      Series(fs, loc, height, width)[k] == (p.blue + p.green + p.red + 1) / 3
    ensures IsByte(Series(fs, loc, height, width)[k])
  {
    var p := fs[k][loc.0][loc.1];
    assert IsBytePixel(p);
    BrightnessIsIntegerMean(p);
  }

  /** Adding one more frame appends its sample to the series. */
  lemma SeriesSnoc(fs: seq<Frame>, f: Frame, loc: (int, int), height: int, width: int)
    requires AllFrames(fs, height, width) && IsFrame(f, height, width)
    requires InImage(loc.0, loc.1, height, width)
    ensures AllFrames(fs + [f], height, width)
    ensures Series(fs + [f], loc, height, width)
            == Series(fs, loc, height, width) + [Brightness(f[loc.0][loc.1])]
  {
  }
}
