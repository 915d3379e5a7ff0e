# Motion heatmap in Dafny

This project models the `MotionHeatmap` class of `python/motion_heatmap.py`. The class
turns a time-lapse of frames into one image: red tint where there is much motion, blue
tint where there is little.

- **Construction** (`__init__`):
  - splits the canvas into `nv x nh` blocks;
  - picks one random sample pixel per block;
  - scans every frame, appending the rounded channel mean at each sample pixel to that
    block's brightness series;
  - optionally accumulates and averages the frames;
  - takes the standard deviation of each series, then smooths the resulting grid.
- **Rendering** (`generate_motion_heatmap`):
  - computes each block's offset `factor * (heatmap[v][h] - mean)`;
  - adds it to the red channel and subtracts it from the blue channel of every pixel
    in the block's rendered extent, clipping each result to [0, 255] with `_clip_rgb`.

The file is Python 2, so `int / int` is floor division, `int()` truncates and `round()`
rounds halves away from zero. These are written out in `Arith`. Reals are exact.

Modules, one per file:

- `Arith` (`arith.dfy`): truncation, rounding and floor-division facts.
- `Color` (`color.dfy`): BGR pixels, `_clip_rgb` and the brightness sample.
- `Blocks` (`blocks.dfy`): block starts, rendered extents and sample coordinates along
  one axis.
- `Frames` (`frames.dfy`): frames, per-pixel channel sums and brightness series as
  specification functions.
- `Render` (`render.dfy`): offsets, the tint of a pixel and the in-place rendering
  loops on an `array3<real>`.
- `MotionHeatmapModel` (`motion_heatmap.dfy`): the class.
  - Its constructor runs the location, frame and heatmap loops.
  - `GenerateMotionHeatmap` renders into the average image itself, which it shares with
    the object, or into a fresh copy of the first frame.

Code behaviours that are easy to misread:

- `_clip_rgb` truncates with `int()`: a clipped 100.7 becomes 100, not 101.
  `ClipRgbCases` proves the floor on [0, 255].
- The class docstring says rendering goes "through each pixel"
  (`python/motion_heatmap.py:23`). With uneven division, though, rows and columns in the
  middle of the image, not only at its edges, belong to no rendered extent and are never
  tinted. `Blocks.InteriorPixelUncovered` proves this for five rows in three blocks:
  row 2 is uncovered.
- The docstring promises "a random pixel location within each block"
  (`python/motion_heatmap.py:18`). Yet a block's sample pixel can land on the first pixel
  of the next block. `Blocks.SampleMayReachNextBlock` proves this: with five rows, two
  blocks and a draw of 0.9, block 0 samples row 2. So the sample is only proved to lie
  between the block's own start and the next block's start, inclusive.
- The clip also runs when the offset is 0. A colour intensity factor of 0 therefore
  leaves 8-bit integer pixels unchanged, but truncates fractional ones, which the
  average image can hold: `Render.ZeroFactorTruncatesFractions`.

## Model

| member | source | states |
|---|---|---|
| Arith.Truncate | python/motion_heatmap.py:124 | `int()` of a float is the integer nearest to it on the side of zero, within one of it |
| Arith.RoundHalfAway | python/motion_heatmap.py:77 | Python 2's `round()`: the nearest integer, with halves rounded away from zero (the result lies within one half of x, strictly on the side away from zero) |
| Color.ClipRgb | python/motion_heatmap.py:116-124 | the clipped value is always an integer in [0, 255] |
| Color.ClipRgbCases | python/motion_heatmap.py:124 | 0 at or below 0, 255 at or above 255, the floor of the value in between |
| Color.ClipRgbIdempotent | python/motion_heatmap.py:124 | clipping a clipped value gives the same value |
| Color.ClipRgbIdentity | python/motion_heatmap.py:124 | on integers in [0, 255] the clip is the identity |
| Color.ClipRgbMonotone | python/motion_heatmap.py:124 | x <= y implies clip(x) <= clip(y) |
| Color.BrightnessIsIntegerMean | python/motion_heatmap.py:77 | for non-negative channels round(mean) is (c0 + c1 + c2 + 1) div 3; for 8-bit pixels it is in [0, 255] |
| Color.ClipShiftNegative | python/motion_heatmap.py:111-112 | a negative offset clipped onto an 8-bit value moves n - offset up and n + offset down |
| Color.ClipShiftPositive | python/motion_heatmap.py:111-112 | a positive offset moves n - offset down and n + offset up |
| Color.Brightness | python/motion_heatmap.py:77 | `round(np.mean(pixel))`: the rounded mean of the three channels; `BrightnessIsIntegerMean` proves it equals (c0 + c1 + c2 + 1) div 3 and is a byte for 8-bit pixels |
| Blocks.SampleCoord | python/motion_heatmap.py:62-63 | for u in [0, 1) the coordinate lies in [start of its block, total) and is at most the next block's start |
| Blocks.SampleMayReachNextBlock | python/motion_heatmap.py:62 | with total 5, 2 blocks and u = 0.9 the sample of block 0 is block 1's start, outside block 0's extent |
| Blocks.ExtentFits | python/motion_heatmap.py:105-108 | every rendered extent [v*T div n, v*T div n + T div n) lies within [0, T) |
| Blocks.ExtentsOrdered | python/motion_heatmap.py:105-108 | an earlier block's extent ends no later than a later block's start |
| Blocks.ExtentsDisjoint | python/motion_heatmap.py:105-108 | a pixel lies in the extents of two blocks only if they are the same block |
| Blocks.FindBlock | python/motion_heatmap.py:98-108 | it returns a block whose extent holds the pixel, or None exactly when no block from `from` on holds it |
| Blocks.BlockOfIff | python/motion_heatmap.py:98-108 | the block found for a pixel is v if and only if the pixel is in v's extent |
| Blocks.InteriorPixelUncovered | python/motion_heatmap.py:105-108 | with 5 rows in 3 blocks, rows 2 and 4 are in no extent and row 3 is in block 2's |
| Frames.ChannelSumBounds | python/motion_heatmap.py:72-73 | the per-pixel channel sum over n 8-bit frames lies in [0, 255 n] |
| Frames.ChannelSum | python/motion_heatmap.py:73 | the running sum of line 73 at one pixel and channel over the frames so far; `ChannelSumBounds`, `ChannelSumSnoc` and `ChannelSumOfConstant` prove its bounds, its one-frame step and its value on constant frames |
| Frames.AverageInByteRange | python/motion_heatmap.py:78-79 | the per-pixel average over a non-empty frame sequence lies in [0, 255] |
| Frames.ChannelSumOfConstant | python/motion_heatmap.py:72-79 | if every frame has value k at a pixel, the sum is n k and the average is k |
| Frames.ChannelSumSnoc | python/motion_heatmap.py:73 | one more frame adds its channel value to the sum |
| Frames.Series | python/motion_heatmap.py:69-77 | a block's brightness series has one entry per frame |
| Frames.SeriesEntries | python/motion_heatmap.py:77 | entry k is (c0 + c1 + c2 + 1) div 3 of frame k's sample pixel and is in [0, 255] |
| Frames.SeriesSnoc | python/motion_heatmap.py:77 | one more frame appends its sample to the series |
| MotionHeatmapModel.SampleLocation | python/motion_heatmap.py:61-64 | both coordinates of a block's sample lie in the image, not before the block's start and not after the next block's start |
| MotionHeatmapModel.SampleRow | python/motion_heatmap.py:60-64 | one pass of the inner loop adds the blocks of one row, each with its sample, and keeps the rest |
| MotionHeatmapModel.SampleLocations | python/motion_heatmap.py:58-64 | the map has exactly the keys (row, col) of the grid; each value is that block's sample, inside the image and not before its block's start |
| MotionHeatmapModel.LocationInBlock | python/motion_heatmap.py:61-64 | a block's sample pixel is inside the image and not before its block's start |
| MotionHeatmapModel.AppendRow | python/motion_heatmap.py:75-77 | the blocks of one more row have this frame's sample appended; other lists are kept |
| MotionHeatmapModel.AppendStep | python/motion_heatmap.py:76-77 | appending to block (row, col) visits exactly one more block and leaves the other lists alone |
| MotionHeatmapModel.AppendSamples | python/motion_heatmap.py:74-77 | every grid block's list (empty if absent, as a defaultdict) gets this frame's rounded mean at its sample pixel; other keys keep their lists; no other key appears |
| MotionHeatmapModel.AddFrame | python/motion_heatmap.py:73 | every channel of every pixel of the accumulator grows by the frame's value there |
| MotionHeatmapModel.DivideImage | python/motion_heatmap.py:79 | every channel of every pixel is divided by the frame count |
| MotionHeatmapModel.ScanFrame | python/motion_heatmap.py:69-77 | one more frame keeps the invariants: the accumulator holds the channel sums (or zeros) and each list holds the series over the frames so far |
| MotionHeatmapModel.ScanFrames | python/motion_heatmap.py:66-77 | afterwards each grid block's list is its sample pixel's series over all frames (no keys if there are no frames); the accumulator holds the channel sums, or stays zero with the overlay off |
| MotionHeatmapModel.ScanAverage | python/motion_heatmap.py:66-79 | a fresh accumulator ends as the per-pixel average of all frames with the overlay on, and all zeros with it off |
| MotionHeatmapModel.UnfilteredHeatmap | python/motion_heatmap.py:82-85 | an nv x nh grid whose entry (row, col) is the standard deviation of block (row, col)'s series |
| MotionHeatmapModel.MotionHeatmap.constructor | python/motion_heatmap.py:43-86 | fields as passed; height and width from the first frame; locations, series and average as above; heatmap is the filter applied to the deviation grid |
| MotionHeatmapModel.MotionHeatmap.GenerateMotionHeatmap | python/motion_heatmap.py:95-112 | it renders into the object's own average array (aliasing) or into a fresh copy of the first frame, leaving the average untouched; every channel becomes RenderedValue of its base value |
| Render.OffsetGrid | python/motion_heatmap.py:104 | the grid of block offsets has one entry per block |
| Render.GridMean | python/motion_heatmap.py:96 | `np.mean(heatmap)`: the grid sum divided by nv * nh; `CenteredSumIsZero` proves the deviations from it sum to zero and `UniformHeatmapHasZeroOffsets` that a constant grid has that constant as mean |
| Render.BlockOffset | python/motion_heatmap.py:104 | factor * (heatmap[v][h] - mean); `OffsetsSumToZero` proves the offsets sum to zero and `BlockOffsetSign` that they have the sign of the deviation for a positive factor |
| Render.Tint | python/motion_heatmap.py:111-112 | red becomes clip(x + offset), blue clip(x - offset), green stays x; `TintSign` proves the direction of each change |
| Render.RenderedValue | python/motion_heatmap.py:98-112 | a pixel's channel is tinted by the offset of the block whose extents hold it, or kept when none does; `RenderInPlace` proves the loops compute it and `RenderedCovered`/`RenderedUncovered` describe its two cases |
| Render.TintPixel | python/motion_heatmap.py:111-112 | red becomes clip(red + offset), blue becomes clip(blue - offset), and all else is unchanged |
| Render.RenderBlockRow | python/motion_heatmap.py:106-112 | only the pixels cs .. cs + span - 1 of one row are tinted |
| Render.RenderRect | python/motion_heatmap.py:105-112 | only the pixels of the rectangle are tinted; every other pixel is unchanged |
| Render.RenderBlock | python/motion_heatmap.py:104-112 | exactly the pixels of block (v, h)'s rendered extent are tinted, within bounds |
| Render.RenderedBeforeStep | python/motion_heatmap.py:98-112 | rendering block (v, h) adds exactly its extent to the pixels already rendered, and none of those was rendered before |
| Render.RenderInPlace | python/motion_heatmap.py:96-112 | after the four nested loops every channel of every pixel is RenderedValue of its old value |
| Render.RenderedCovered | python/motion_heatmap.py:105-112 | at a pixel of block (v, h)'s extent, red is clip(x + offset), blue is clip(x - offset) and green is x |
| Render.RenderedUncovered | python/motion_heatmap.py:105-108 | a pixel whose row or column lies in no extent keeps every channel |
| Render.RenderedGreenUnchanged | python/motion_heatmap.py:111-112 | channel 1 is never changed |
| Render.ZeroFactorKeepsBytes | python/motion_heatmap.py:104-124 | with factor 0 an 8-bit integer channel value is rendered unchanged |
| Render.ZeroFactorTruncatesFractions | python/motion_heatmap.py:104-124 | with factor 0 a covered 100.5 in red or blue becomes 100 |
| Render.TintSign | python/motion_heatmap.py:111-112 | a negative offset never lowers blue or raises red; a positive one the other way round |
| Render.BlockOffsetSign | python/motion_heatmap.py:104 | for a positive factor the offset has the sign of the block's deviation from the mean |
| Render.OffsetSignTints | python/motion_heatmap.py:104-112 | for a positive factor a block below the mean renders no redder and no less blue; one above the mean the other way round |
| Render.GridSumMap | python/motion_heatmap.py:104 | an additive map applied to every entry of a grid is applied to its sum |
| Render.CenteredSumIsZero | python/motion_heatmap.py:96 | subtracting the heatmap's mean from every entry leaves a grid summing to zero |
| Render.OffsetsSumToZero | python/motion_heatmap.py:96-104 | the block offsets sum to zero over all blocks before clipping |
| Render.UniformHeatmapHasZeroOffsets | python/motion_heatmap.py:96-104 | a constant heatmap has that constant as mean, so every offset is zero |

## Left out

- Directory listing, `isfile`, sorting and the filter function (lines 49-52): filesystem I/O. The frames are a given sequence of decoded images, in the order the loop visits them.
- `cv2.imread` (lines 53, 71, 95): an image decoder. Frames are grids of BGR integer triples. The model requires every frame to be an 8-bit image of the first frame's shape. A failed decode, where `cv2.imread` returns None, is not modelled: the source then raises a TypeError at `len(None)` on line 54 or at `frame[pixel_row]` on line 77.
- `cv2.imwrite` and its boolean result (line 114): `GenerateMotionHeatmap` returns the rendered array instead.
- `random.random()` (lines 62-63): the values it returns are the parameter `draws`, one pair per block in row-major order, the row draw first. Each value lies in [0, 1).
- `np.std` (line 85): the parameter `stdDev`, a function from a series to a real.
- `scipy.ndimage.filters.gaussian_filter` (line 86): the parameter `blur`. It is only assumed to keep the nv x nh shape, and sigma is fixed inside it.
- The progress `print` statements (lines 70, 100-103): output only.
- Floating point: all arithmetic is on exact reals, so rounding error and NaN are not modelled. The first-frame image stays uint8, and the values stored into it are integers in [0, 255], which reals hold exactly. The one float-to-8-bit step, writing the float average image, belongs to `cv2.imwrite` above.
- An empty frame list: the source fails with an IndexError at line 53. The constructor requires at least one frame with at least one row and one column.
- Zero or negative division counts: zero leaves the heatmap empty and makes `np.mean` NaN; a negative count makes `np.zeros` raise a ValueError at line 82. The model requires at least one block along each axis.
- The image path attribute (line 47) and the list of file names: they matter only to the I/O above.
- Default arguments (lines 35-41): `file_filter_func` accepts every file, `use_average_image_overlay` is True, `sigma` is 1.5 and `color_intensity_factor` is 7. The constructor takes every value explicitly, because `stdDev` and `blur` are function parameters without a natural default and so cannot follow defaulted ones; sigma lives inside `blur`.
