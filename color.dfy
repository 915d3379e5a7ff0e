/** Pixels of a decoded colour image and the two per-pixel formulas of the
    heatmap: the clip to an 8-bit channel and the rounded mean brightness. */
module Color {
  import opened Arith

  /** One decoded pixel. The decoder stores the channels in the order
      [blue, green, red], so index 0 is blue and index 2 is red. */
  datatype Bgr = Bgr(blue: int, green: int, red: int)

  /** The channel at index `k` of a pixel, as `pixel[k]` in the source. */
  function Channel(p: Bgr, k: int): int
    requires 0 <= k < 3
  {
    if k == 0 then p.blue else if k == 1 then p.green else p.red
  }

  predicate IsByte(x: int) {
    0 <= x <= 255
  }

  /** A pixel of an 8-bit image: every channel in [0, 255]. */
  predicate IsBytePixel(p: Bgr) {
    IsByte(p.blue) && IsByte(p.green) && IsByte(p.red)
  }

  function Min(a: real, b: real): real { if a <= b then a else b }
  function Max(a: real, b: real): real { if a >= b then a else b }

  /** `_clip_rgb`: clamp to [0, 255], then convert to an integer with `int()`. */
  function ClipRgb(value: real): (n: int)
    ensures IsByte(n)
  {
    Truncate(Max(Min(value, 255.0), 0.0))
  }

  /** An independent description of the clip: 0 below the range, 255 above it,
      and the floor of the value inside it. */
  lemma ClipRgbCases(x: real)
    ensures x <= 0.0 ==> ClipRgb(x) == 0
    ensures 255.0 <= x ==> ClipRgb(x) == 255
    ensures 0.0 <= x <= 255.0 ==> ClipRgb(x) == x.Floor
  {
  }

  /** Clipping a clipped value changes nothing. */
  lemma ClipRgbIdempotent(x: real)
    ensures ClipRgb(ClipRgb(x) as real) == ClipRgb(x)
  {
    ClipRgbIdentity(ClipRgb(x));
  }

  /** On integers already in [0, 255] the clip is the identity. */
  lemma ClipRgbIdentity(n: int)
    requires IsByte(n)
    ensures ClipRgb(n as real) == n
  {
  }

  /** The clip is monotone. */
  lemma ClipRgbMonotone(x: real, y: real)
    requires x <= y
    ensures ClipRgb(x) <= ClipRgb(y)
  {
    ClipRgbCases(x);
    ClipRgbCases(y);
  }

  /** The brightness sample of one pixel: `round(np.mean(pixel))`, the mean of
      the three channels rounded with Python 2's `round`. */
  function Brightness(p: Bgr): int {
    RoundHalfAway((p.blue + p.green + p.red) as real / 3.0)
  }

  /** For non-negative channels the rounded mean is the integer (s + 1) / 3, since a
      third of an integer never ends in exactly one half; for an 8-bit pixel the
      sample is itself in [0, 255]. */
  lemma {:induction false} BrightnessIsIntegerMean(p: Bgr)
    requires p.blue >= 0 && p.green >= 0 && p.red >= 0
    ensures Brightness(p) == (p.blue + p.green + p.red + 1) / 3
    ensures IsBytePixel(p) ==> IsByte(Brightness(p))
  {
    var s := p.blue + p.green + p.red;
    var q, r := s / 3, s % 3;
    assert s == 3 * q + r;
    var x := s as real / 3.0;
    assert x == q as real + r as real / 3.0;
    if r == 0 {
      assert (x + 0.5).Floor == q;
    } else if r == 1 {
      assert (x + 0.5).Floor == q;
    } else {
      assert (x + 0.5).Floor == q + 1;
    }
  }

  /** Shifting an 8-bit value by a negative offset and clipping moves it the
      sign's way: up for `n - offset`, down for `n + offset`. */
  lemma ClipShiftNegative(n: int, offset: real)
    requires IsByte(n) && offset < 0.0
    ensures ClipRgb(n as real - offset) >= n && ClipRgb(n as real + offset) <= n
  {
    ClipRgbIdentity(n);
    ClipRgbMonotone(n as real, n as real - offset);
    ClipRgbMonotone(n as real + offset, n as real);
  }

  /** The same for a positive offset: down for `n - offset`, up for `n + offset`. */
  lemma ClipShiftPositive(n: int, offset: real)
    requires IsByte(n) && offset > 0.0
    ensures ClipRgb(n as real - offset) <= n && ClipRgb(n as real + offset) >= n
  {
    ClipRgbIdentity(n);
    ClipRgbMonotone(n as real - offset, n as real);
    ClipRgbMonotone(n as real, n as real + offset);
  }
}
