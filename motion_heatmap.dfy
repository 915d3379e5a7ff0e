/** The `MotionHeatmap` class: construction samples one pixel per block, scans
    every frame to build the per-block brightness series and (optionally) the
    average image, and derives the heatmap; `GenerateMotionHeatmap` renders it.

    The collaborators the class calls but does not define are parameters: the
    decoded frames (in the sorted, filtered order of the directory listing), the
    values returned by `random.random()` in call order, `np.std` and the Gaussian
    filter of the heatmap (with its sigma fixed inside it). */
module MotionHeatmapModel {
  import opened Arith
  import opened Color
  import opened Blocks
  import opened Frames
  import opened Render

  /** A block (row, col) of the partition and a pixel location (row, col). */
  type Block = (int, int)
  type Coord = (int, int)

  predicate InGrid(b: Block, nv: int, nh: int) {
    0 <= b.0 < nv && 0 <= b.1 < nh
  }

  /** The values `random.random()` returns while the locations are picked, in
      call order: block (row, col) draws `draws[row][col].0` for its row and then
      `draws[row][col].1` for its column, blocks in row-major order; every value
      lies in [0, 1). */
  ghost predicate ValidDraws(draws: seq<seq<(real, real)>>, nv: int, nh: int) {
    && |draws| == nv
    && (forall i :: 0 <= i < nv ==> |draws[i]| == nh)
    && (forall i, j :: 0 <= i < nv && 0 <= j < nh && j < |draws[i]| ==>
          0.0 <= draws[i][j].0 < 1.0 && 0.0 <= draws[i][j].1 < 1.0)
  }

  /** The sample pixel of block `b` (`motion_heatmap.py` lines 61-64): both coordinates lie in
      the image, not before the block's start and not after the next block's start. */
  function SampleLocation(b: Block, nv: int, nh: int, height: int, width: int, draws: seq<seq<(real, real)>>): (p: Coord)
    requires nv >= 1 && nh >= 1 && height >= 1 && width >= 1
    requires ValidDraws(draws, nv, nh) && InGrid(b, nv, nh)
    ensures BlockStart(b.0, height, nv) <= p.0 < height && p.0 <= BlockStart(b.0 + 1, height, nv)
    ensures BlockStart(b.1, width, nh) <= p.1 < width && p.1 <= BlockStart(b.1 + 1, width, nh)
  {
    var u := draws[b.0][b.1];
    (SampleCoord(b.0, u.0, height, nv), SampleCoord(b.1, u.1, width, nh))
  }

  /** The keys of the location map after the blocks of rows before `row`
      and the first `col` blocks of row `row` have been visited. */
  predicate Visited(b: Block, row: int, col: int, nh: int) {
    (0 <= b.0 < row && 0 <= b.1 < nh) || (b.0 == row && 0 <= b.1 < col)
  }

  /** One pass of the inner loop of `motion_heatmap.py` lines 60-64: adds the sample of each
      block of row `row` and keeps the other entries. */
  method SampleRow(locs: map<Block, Coord>, row: int, nv: int, nh: int, height: int, width: int, draws: seq<seq<(real, real)>>)
    returns (next: map<Block, Coord>)
    requires nv >= 1 && nh >= 1 && height >= 1 && width >= 1 && ValidDraws(draws, nv, nh) && 0 <= row < nv
    requires forall b :: b in locs <==> Visited(b, row, 0, nh)
    requires forall b :: b in locs ==> InGrid(b, nv, nh) && locs[b] == SampleLocation(b, nv, nh, height, width, draws)
    ensures forall b :: b in next <==> Visited(b, row + 1, 0, nh)
    ensures forall b :: b in next ==> InGrid(b, nv, nh) && next[b] == SampleLocation(b, nv, nh, height, width, draws)
  {
    next := locs;
    var col := 0;
    while col < nh
      invariant 0 <= col <= nh
      invariant forall b :: b in next <==> Visited(b, row, col, nh)
      invariant forall b :: b in next ==> InGrid(b, nv, nh) && next[b] == SampleLocation(b, nv, nh, height, width, draws)
    {
      var rowDraw, colDraw := draws[row][col].0, draws[row][col].1;
      next := next[(row, col) := (SampleCoord(row, rowDraw, height, nv), SampleCoord(col, colDraw, width, nh))];
      col := col + 1;
    }
  }

  /** The location loop of `__init__` (`motion_heatmap.py` lines 58-64): one entry per block of
      the nv x nh grid and no other keys, each a pixel inside the image in its block. */
  method SampleLocations(nv: int, nh: int, height: int, width: int, draws: seq<seq<(real, real)>>)
    returns (locs: map<Block, Coord>)
    requires nv >= 1 && nh >= 1 && height >= 1 && width >= 1 && ValidDraws(draws, nv, nh)
    ensures forall b :: b in locs <==> InGrid(b, nv, nh)
    ensures forall b :: b in locs ==> locs[b] == SampleLocation(b, nv, nh, height, width, draws)
    ensures forall b :: b in locs ==> InImage(locs[b].0, locs[b].1, height, width)
                                      && BlockStart(b.0, height, nv) <= locs[b].0
                                      && BlockStart(b.1, width, nh) <= locs[b].1
  {
    locs := map[];
    var row := 0;
    while row < nv
      invariant 0 <= row <= nv
      invariant forall b :: b in locs <==> Visited(b, row, 0, nh)
      invariant forall b :: b in locs ==> InGrid(b, nv, nh) && locs[b] == SampleLocation(b, nv, nh, height, width, draws)
    {
      locs := SampleRow(locs, row, nv, nh, height, width, draws);
      row := row + 1;
    }
    LocationsInBlocks(locs, nv, nh, height, width, draws);
  }

  /** A map holding the sample of each block of the grid has every value in the
      image, not before its block's start. */
  lemma LocationsInBlocks(locs: map<Block, Coord>, nv: int, nh: int, height: int, width: int, draws: seq<seq<(real, real)>>)
    requires nv >= 1 && nh >= 1 && height >= 1 && width >= 1 && ValidDraws(draws, nv, nh)
    requires forall b :: b in locs ==> InGrid(b, nv, nh) && locs[b] == SampleLocation(b, nv, nh, height, width, draws)
    ensures forall b :: b in locs ==> InImage(locs[b].0, locs[b].1, height, width)
                                      && BlockStart(b.0, height, nv) <= locs[b].0
                                      && BlockStart(b.1, width, nh) <= locs[b].1
  {
    forall b | b in locs
      ensures InImage(locs[b].0, locs[b].1, height, width)
      ensures BlockStart(b.0, height, nv) <= locs[b].0 && BlockStart(b.1, width, nh) <= locs[b].1
    {
      var p := locs[b];
      LocationInBlock(b, p, nv, nh, height, width, draws);
    }
  }

  lemma LocationInBlock(b: Block, p: Coord, nv: int, nh: int, height: int, width: int, draws: seq<seq<(real, real)>>)
    requires nv >= 1 && nh >= 1 && height >= 1 && width >= 1 && ValidDraws(draws, nv, nh)
    requires InGrid(b, nv, nh) && p == SampleLocation(b, nv, nh, height, width, draws)
    ensures InImage(p.0, p.1, height, width)
    ensures BlockStart(b.0, height, nv) <= p.0 && BlockStart(b.1, width, nh) <= p.1
  {
    ExtentFits(b.0, height, nv);
    ExtentFits(b.1, width, nh);
  }

  /** `block_intensities[b]` of a `defaultdict(list)`: the empty list when absent. */
  function Lookup(series: map<Block, seq<int>>, b: Block): seq<int> {
    if b in series then series[b] else []
  }

  /** Every sample location of the grid is a pixel of the image. */
  ghost predicate LocationsInImage(locs: map<Block, Coord>, nv: int, nh: int, height: int, width: int) {
    forall b :: InGrid(b, nv, nh) ==> b in locs && InImage(locs[b].0, locs[b].1, height, width)
  }

  /** The intensity lists while a frame is being scanned: the blocks visited so
      far have this frame's sample appended to their old list (an empty one when
      absent), every other key of `series` keeps its list, and no other key exists. */
  ghost predicate AppendedSoFar(next: map<Block, seq<int>>, series: map<Block, seq<int>>, frame: Frame,
                                locs: map<Block, Coord>, row: int, col: int, nv: int, nh: int, height: int, width: int)
    requires IsFrame(frame, height, width) && LocationsInImage(locs, nv, nh, height, width)
  {
    && (forall b :: b in next <==> b in series || (Visited(b, row, col, nh) && InGrid(b, nv, nh)))
    && (forall b :: Visited(b, row, col, nh) && InGrid(b, nv, nh) ==>
          next[b] == Lookup(series, b) + [Brightness(frame[locs[b].0][locs[b].1])])
    && (forall b :: b in series && !(Visited(b, row, col, nh) && InGrid(b, nv, nh)) ==> next[b] == series[b])
  }

  /** One pass of the inner block loop (`motion_heatmap.py` lines 75-77) for blocks of row `row`. */
  method AppendRow(next: map<Block, seq<int>>, series: map<Block, seq<int>>, frame: Frame, locs: map<Block, Coord>,
                   row: int, nv: int, nh: int, height: int, width: int)
    returns (out: map<Block, seq<int>>)
    requires 0 <= row < nv && nh >= 1 && IsFrame(frame, height, width)
    requires LocationsInImage(locs, nv, nh, height, width)
    requires AppendedSoFar(next, series, frame, locs, row, 0, nv, nh, height, width)
    ensures AppendedSoFar(out, series, frame, locs, row + 1, 0, nv, nh, height, width)
  {
    out := next;
    var col := 0;
    while col < nh
      invariant 0 <= col <= nh
      invariant AppendedSoFar(out, series, frame, locs, row, col, nv, nh, height, width)
    {
      var loc := locs[(row, col)];
      AppendStep(out, series, frame, locs, row, col, nv, nh, height, width);
      out := out[(row, col) := Lookup(out, (row, col)) + [Brightness(frame[loc.0][loc.1])]];
      col := col + 1;
    }
    AppendedNextRow(out, series, frame, locs, row, nv, nh, height, width);
  }

  /** Having visited a whole row of blocks is having visited the rows before the next. */
  lemma AppendedNextRow(out: map<Block, seq<int>>, series: map<Block, seq<int>>, frame: Frame, locs: map<Block, Coord>,
                        row: int, nv: int, nh: int, height: int, width: int)
    requires 0 <= row && IsFrame(frame, height, width) && LocationsInImage(locs, nv, nh, height, width)
    requires AppendedSoFar(out, series, frame, locs, row, nh, nv, nh, height, width)
    ensures AppendedSoFar(out, series, frame, locs, row + 1, 0, nv, nh, height, width)
  {
    assert forall b :: Visited(b, row, nh, nh) <==> Visited(b, row + 1, 0, nh);
  }

  /** Appending the sample of block (row, col) visits one more block. */
  lemma AppendStep(out: map<Block, seq<int>>, series: map<Block, seq<int>>, frame: Frame, locs: map<Block, Coord>,
                   row: int, col: int, nv: int, nh: int, height: int, width: int)
    requires 0 <= row < nv && 0 <= col < nh && IsFrame(frame, height, width)
    requires LocationsInImage(locs, nv, nh, height, width)
    requires AppendedSoFar(out, series, frame, locs, row, col, nv, nh, height, width)
    ensures var b := (row, col);
      AppendedSoFar(out[b := Lookup(out, b) + [Brightness(frame[locs[b].0][locs[b].1])]],
                    series, frame, locs, row, col + 1, nv, nh, height, width)
  {
    var b := (row, col);
    assert !Visited(b, row, col, nh);
    assert Lookup(out, b) == Lookup(series, b);
  }

  /** The per-frame block loop (`motion_heatmap.py` lines 74-77): every block's list gets the
      rounded brightness of this frame at its sample pixel; other keys are kept. */
  method AppendSamples(series: map<Block, seq<int>>, frame: Frame, locs: map<Block, Coord>,
                       nv: int, nh: int, height: int, width: int)
    returns (next: map<Block, seq<int>>)
    requires nv >= 1 && nh >= 1 && IsFrame(frame, height, width)
    requires LocationsInImage(locs, nv, nh, height, width)
    ensures forall b :: b in next <==> b in series || InGrid(b, nv, nh)
    ensures forall b :: InGrid(b, nv, nh) ==>
      next[b] == Lookup(series, b) + [Brightness(frame[locs[b].0][locs[b].1])]
    ensures forall b :: b in series && !InGrid(b, nv, nh) ==> next[b] == series[b]
  {
    next := series;
    var row := 0;
    while row < nv
      invariant 0 <= row <= nv
      invariant AppendedSoFar(next, series, frame, locs, row, 0, nv, nh, height, width)
    {
      next := AppendRow(next, series, frame, locs, row, nv, nh, height, width);
      row := row + 1;
    }
    assert forall b :: Visited(b, nv, 0, nh) <==> InGrid(b, nv, nh);
  }

  /** One pixel of `average_image += frame`. */
  method AddPixel(acc: array3<real>, r: int, c: int, p: Bgr)
    requires 0 <= r < acc.Length0 && 0 <= c < acc.Length1 && acc.Length2 == 3
    modifies acc
    ensures forall i, j, ch :: 0 <= i < acc.Length0 && 0 <= j < acc.Length1 && 0 <= ch < 3 ==>
      acc[i, j, ch] == if i == r && j == c then old(acc[i, j, ch]) + Channel(p, ch) as real else old(acc[i, j, ch])
  {
    acc[r, c, 0] := acc[r, c, 0] + p.blue as real;
    acc[r, c, 1] := acc[r, c, 1] + p.green as real;
    acc[r, c, 2] := acc[r, c, 2] + p.red as real;
  }

  /** One row of `average_image += frame`. */
  method AddRow(acc: array3<real>, r: int, pixels: seq<Bgr>)
    requires 0 <= r < acc.Length0 && |pixels| == acc.Length1 && acc.Length2 == 3
    modifies acc
    ensures forall i, j, ch :: 0 <= i < acc.Length0 && 0 <= j < acc.Length1 && 0 <= ch < 3 ==>
      acc[i, j, ch] == if i == r then old(acc[i, j, ch]) + Channel(pixels[j], ch) as real else old(acc[i, j, ch])
  {
    var c := 0;
    while c < acc.Length1
      invariant 0 <= c <= acc.Length1
      invariant forall i, j, ch :: 0 <= i < acc.Length0 && 0 <= j < acc.Length1 && 0 <= ch < 3 ==>
        acc[i, j, ch] == if i == r && j < c then old(acc[i, j, ch]) + Channel(pixels[j], ch) as real else old(acc[i, j, ch])
    {
      AddPixel(acc, r, c, pixels[c]);
      c := c + 1;
    }
  }

  /** `average_image += frame` (`motion_heatmap.py` line 73): every channel of every pixel
      grows by the frame's value there. */
  method AddFrame(acc: array3<real>, frame: Frame)
    requires IsFrame(frame, acc.Length0, acc.Length1) && acc.Length2 == 3
    modifies acc
    ensures forall r, c, ch :: 0 <= r < acc.Length0 && 0 <= c < acc.Length1 && 0 <= ch < 3 ==>
      acc[r, c, ch] == old(acc[r, c, ch]) + Channel(frame[r][c], ch) as real
  {
    var r := 0;
    while r < acc.Length0
      invariant 0 <= r <= acc.Length0
      invariant forall i, j, ch :: 0 <= i < acc.Length0 && 0 <= j < acc.Length1 && 0 <= ch < 3 ==>
        acc[i, j, ch] == if i < r then old(acc[i, j, ch]) + Channel(frame[i][j], ch) as real else old(acc[i, j, ch])
    {
      AddRow(acc, r, frame[r]);
      r := r + 1;
    }
  }

  /** The accumulator holds, for every channel of every pixel, the sum over the
      frames `fs` when the average overlay is on, and zero when it is off. */
  ghost predicate SumsSoFar(acc: array3<real>, fs: seq<Frame>, height: int, width: int, on: bool)
    reads acc
  {
    && acc.Length0 == height && acc.Length1 == width && acc.Length2 == 3
    && AllFrames(fs, height, width)
    && forall r, c, ch :: 0 <= r < height && 0 <= c < width && 0 <= ch < 3 ==>
         acc[r, c, ch] == if on then ChannelSum(fs, r, c, ch, height, width) as real else 0.0
  }

  /** The intensity lists hold, for every block, the series of its sample pixel
      over the frames `fs`; no list exists before the first frame. */
  ghost predicate SeriesSoFar(series: map<Block, seq<int>>, fs: seq<Frame>, locs: map<Block, Coord>,
                              nv: int, nh: int, height: int, width: int)
  {
    && AllFrames(fs, height, width)
    && LocationsInImage(locs, nv, nh, height, width)
    && (forall b :: b in series <==> |fs| > 0 && InGrid(b, nv, nh))
    && forall b :: b in series ==> series[b] == Series(fs, locs[b], height, width)
  }

  /** One pass of the frame loop (`motion_heatmap.py` lines 72-77) for the frame after `seen`. */
  method ScanFrame(seen: seq<Frame>, frame: Frame, locs: map<Block, Coord>, nv: int, nh: int, height: int, width: int,
                   acc: array3<real>, useAverageImageOverlay: bool, series: map<Block, seq<int>>)
    returns (next: map<Block, seq<int>>)
    requires nv >= 1 && nh >= 1 && IsFrame(frame, height, width)
    requires SumsSoFar(acc, seen, height, width, useAverageImageOverlay)
    requires SeriesSoFar(series, seen, locs, nv, nh, height, width)
    modifies acc
    ensures SumsSoFar(acc, seen + [frame], height, width, useAverageImageOverlay)
    ensures SeriesSoFar(next, seen + [frame], locs, nv, nh, height, width)
  {
    if useAverageImageOverlay {
      AddFrame(acc, frame);
    }
    next := AppendSamples(series, frame, locs, nv, nh, height, width);
    forall r, c, ch | 0 <= r < height && 0 <= c < width && 0 <= ch < 3
      ensures ChannelSum(seen + [frame], r, c, ch, height, width)
              == ChannelSum(seen, r, c, ch, height, width) + Channel(frame[r][c], ch)
    {
      ChannelSumSnoc(seen, frame, r, c, ch, height, width);
    }
    forall b | b in next
      ensures next[b] == Series(seen + [frame], locs[b], height, width)
    {
      SeriesSnoc(seen, frame, locs[b], height, width);
    }
  }

  /** The frame loop of `__init__` (`motion_heatmap.py` lines 69-77): after it, each block's
      list holds the brightness series of its sample pixel over all frames, and
      the accumulator (zero before) holds each channel's sum over all frames when
      the average overlay is on and stays zero otherwise. */
  method ScanFrames(frames: seq<Frame>, locs: map<Block, Coord>, nv: int, nh: int, height: int, width: int,
                    acc: array3<real>, useAverageImageOverlay: bool)
    returns (series: map<Block, seq<int>>)
    requires nv >= 1 && nh >= 1 && AllFrames(frames, height, width)
    requires LocationsInImage(locs, nv, nh, height, width)
    requires acc.Length0 == height && acc.Length1 == width && acc.Length2 == 3
    requires forall r, c, ch :: 0 <= r < height && 0 <= c < width && 0 <= ch < 3 ==> acc[r, c, ch] == 0.0
    modifies acc
    ensures forall b :: b in series <==> |frames| > 0 && InGrid(b, nv, nh)
    ensures forall b :: b in series ==> series[b] == Series(frames, locs[b], height, width)
    ensures forall r, c, ch :: 0 <= r < height && 0 <= c < width && 0 <= ch < 3 ==>
      acc[r, c, ch] == if useAverageImageOverlay then ChannelSum(frames, r, c, ch, height, width) as real else 0.0
  {
    series := map[];
    var index := 0;
    assert frames[..0] == [];
    while index < |frames|
      invariant 0 <= index <= |frames|
      invariant SumsSoFar(acc, frames[..index], height, width, useAverageImageOverlay)
      invariant SeriesSoFar(series, frames[..index], locs, nv, nh, height, width)
    {
      assert frames[..index + 1] == frames[..index] + [frames[index]];
      series := ScanFrame(frames[..index], frames[index], locs, nv, nh, height, width, acc, useAverageImageOverlay, series);
      index := index + 1;
    }
    assert frames[..index] == frames;
  }

  /** One row of `average_image /= count`. */
  method DivideRow(acc: array3<real>, r: int, count: real)
    requires 0 <= r < acc.Length0 && acc.Length2 == 3 && count > 0.0
    modifies acc
    ensures forall i, j, ch :: 0 <= i < acc.Length0 && 0 <= j < acc.Length1 && 0 <= ch < 3 ==>
      acc[i, j, ch] == if i == r then old(acc[i, j, ch]) / count else old(acc[i, j, ch])
  {
    var c := 0;
    while c < acc.Length1
      invariant 0 <= c <= acc.Length1
      invariant forall i, j, ch :: 0 <= i < acc.Length0 && 0 <= j < acc.Length1 && 0 <= ch < 3 ==>
        acc[i, j, ch] == if i == r && j < c then old(acc[i, j, ch]) / count else old(acc[i, j, ch])
    {
      acc[r, c, 0] := acc[r, c, 0] / count;
      acc[r, c, 1] := acc[r, c, 1] / count;
      acc[r, c, 2] := acc[r, c, 2] / count;
      c := c + 1;
    }
  }

  /** `average_image /= len(frame_files)` (`motion_heatmap.py` line 79). */
  method DivideImage(acc: array3<real>, count: real)
    requires acc.Length2 == 3 && count > 0.0
    modifies acc
    ensures forall r, c, ch :: 0 <= r < acc.Length0 && 0 <= c < acc.Length1 && 0 <= ch < 3 ==>
      acc[r, c, ch] == old(acc[r, c, ch]) / count
  {
    var r := 0;
    while r < acc.Length0
      invariant 0 <= r <= acc.Length0
      invariant forall i, j, ch :: 0 <= i < acc.Length0 && 0 <= j < acc.Length1 && 0 <= ch < 3 ==>
        acc[i, j, ch] == if i < r then old(acc[i, j, ch]) / count else old(acc[i, j, ch])
    {
      DivideRow(acc, r, count);
      r := r + 1;
    }
  }

  /** The unfiltered heatmap loop (`motion_heatmap.py` lines 82-85): entry (row, col) is the
      standard deviation of block (row, col)'s series. */
  method UnfilteredHeatmap(series: map<Block, seq<int>>, nv: int, nh: int, stdDev: seq<int> -> real)
    returns (g: seq<seq<real>>)
    requires nv >= 1 && nh >= 1
    requires forall row, col :: 0 <= row < nv && 0 <= col < nh ==> (row, col) in series
    ensures IsGrid(g, nv, nh)
    ensures forall row, col :: 0 <= row < nv && 0 <= col < nh ==> g[row][col] == stdDev(series[(row, col)])
  {
    g := [];
    var row := 0;
    while row < nv
      invariant 0 <= row <= nv
      invariant IsGrid(g, row, nh)
      invariant forall i, j :: 0 <= i < row && 0 <= j < nh ==> g[i][j] == stdDev(series[(i, j)])
    {
      var line: seq<real> := [];
      var col := 0;
      while col < nh
        invariant 0 <= col <= nh
        invariant |line| == col
        invariant forall j :: 0 <= j < col ==> line[j] == stdDev(series[(row, j)])
      {
        line := line + [stdDev(series[(row, col)])];
        col := col + 1;
      }
      g := g + [line];
      row := row + 1;
    }
  }

  /** `motion_heatmap.py` lines 66-79: the frame loop on a fresh all-zero accumulator,
      followed by the division by the frame count when the overlay is on. */
  method ScanAverage(frames: seq<Frame>, locs: map<Block, Coord>, nv: int, nh: int, height: int, width: int,
                     useAverageImageOverlay: bool)
    returns (series: map<Block, seq<int>>, average: array3<real>)
    requires nv >= 1 && nh >= 1 && height >= 0 && width >= 0 && AllFrames(frames, height, width)
    requires LocationsInImage(locs, nv, nh, height, width)
    ensures fresh(average)
    ensures average.Length0 == height && average.Length1 == width && average.Length2 == 3
    ensures forall b :: b in series <==> |frames| > 0 && InGrid(b, nv, nh)
    ensures forall b :: b in series ==> series[b] == Series(frames, locs[b], height, width)
    ensures forall r, c, ch :: 0 <= r < height && 0 <= c < width && 0 <= ch < 3 ==>
      average[r, c, ch] == if useAverageImageOverlay && |frames| > 0
                           then ChannelSum(frames, r, c, ch, height, width) as real / |frames| as real
                           else 0.0
  {
    average := new real[height, width, 3]((_, _, _) => 0.0);
    series := ScanFrames(frames, locs, nv, nh, height, width, average, useAverageImageOverlay);
    if useAverageImageOverlay && |frames| > 0 {
      DivideImage(average, |frames| as real);
    }
  }

  class MotionHeatmap {
    const numVerticalDivisions: int
    const numHorizontalDivisions: int
    const colorIntensityFactor: real
    const useAverageImageOverlay: bool
    /** The decoded frames in time order. */
    const frames: seq<Frame>
    const height: int
    const width: int
    const pixelLocations: map<Block, Coord>
    const blockIntensities: map<Block, seq<int>>
    const averageImage: array3<real>
    /** The grid of standard deviations before the Gaussian filter. */
    ghost const unfilteredHeatmap: seq<seq<real>>
    const heatmap: seq<seq<real>>

    ghost predicate Valid() {
      && numVerticalDivisions >= 1 && numHorizontalDivisions >= 1
      && |frames| >= 1 && height == |frames[0]| && height >= 1 && width >= 1
      && AllFrames(frames, height, width)
      && averageImage.Length0 == height && averageImage.Length1 == width && averageImage.Length2 == 3
      && IsGrid(heatmap, numVerticalDivisions, numHorizontalDivisions)
    }

    /** `__init__` (`motion_heatmap.py` lines 43-86). `frames` are the decoded frames, `draws`
        the values of `random.random()`, `stdDev` stands for `np.std` and `blur`
        for the Gaussian filter, which keeps the shape of the grid. */
    constructor (nv: int, nh: int, frames: seq<Frame>, draws: seq<seq<(real, real)>>, useAverageImageOverlay: bool,
                 stdDev: seq<int> -> real, blur: seq<seq<real>> -> seq<seq<real>>, colorIntensityFactor: real)
      requires nv >= 1 && nh >= 1
      requires |frames| >= 1 && |frames[0]| >= 1 && |frames[0][0]| >= 1
      requires AllFrames(frames, |frames[0]|, |frames[0][0]|)
      requires ValidDraws(draws, nv, nh)
      requires forall g :: IsGrid(g, nv, nh) ==> IsGrid(blur(g), nv, nh)
      ensures Valid() && fresh(averageImage)
      ensures numVerticalDivisions == nv && numHorizontalDivisions == nh
      ensures this.frames == frames && height == |frames[0]| && width == |frames[0][0]|
      ensures this.useAverageImageOverlay == useAverageImageOverlay
      ensures this.colorIntensityFactor == colorIntensityFactor
      ensures forall b :: b in pixelLocations <==> InGrid(b, nv, nh)
      ensures forall b :: b in pixelLocations ==>
        pixelLocations[b] == SampleLocation(b, nv, nh, height, width, draws)
      ensures LocationsInImage(pixelLocations, nv, nh, height, width)
      ensures forall b :: b in blockIntensities <==> InGrid(b, nv, nh)
      ensures forall b :: InGrid(b, nv, nh) ==>
        blockIntensities[b] == Series(frames, pixelLocations[b], height, width)
      ensures forall r, c, ch :: 0 <= r < height && 0 <= c < width && 0 <= ch < 3 ==>
        averageImage[r, c, ch] == if useAverageImageOverlay
                                  then ChannelSum(frames, r, c, ch, height, width) as real / |frames| as real
                                  else 0.0
      ensures IsGrid(unfilteredHeatmap, nv, nh) && heatmap == blur(unfilteredHeatmap)
      ensures forall row, col :: InGrid((row, col), nv, nh) ==>
        unfilteredHeatmap[row][col] == stdDev(blockIntensities[(row, col)])
    {
      var h, w := |frames[0]|, |frames[0][0]|;
      var locs := SampleLocations(nv, nh, h, w, draws);
      var series, acc := ScanAverage(frames, locs, nv, nh, h, w, useAverageImageOverlay);
      var unfiltered := UnfilteredHeatmap(series, nv, nh, stdDev);

      numVerticalDivisions := nv;
      numHorizontalDivisions := nh;
      this.colorIntensityFactor := colorIntensityFactor;
      this.useAverageImageOverlay := useAverageImageOverlay;
      this.frames := frames;
      height, width := h, w;
      pixelLocations := locs;
      blockIntensities := series;
      averageImage := acc;
      unfilteredHeatmap := unfiltered;
      heatmap := blur(unfiltered);
    }

    /** `generate_motion_heatmap` (`motion_heatmap.py` lines 95-112), up to the final
        `cv2.imwrite`: the output image is the average image itself (so rendering
        changes the builder's own array) or a fresh copy of the first frame, and
        every channel of every pixel becomes `RenderedValue` of its base value. */
    method GenerateMotionHeatmap() returns (output: array3<real>)
      requires Valid()
      modifies averageImage
      ensures useAverageImageOverlay ==> output == averageImage
      ensures !useAverageImageOverlay ==> fresh(output) && unchanged(averageImage)
      ensures output.Length0 == height && output.Length1 == width && output.Length2 == 3
      ensures forall r, c, ch :: 0 <= r < height && 0 <= c < width && 0 <= ch < 3 ==>
        output[r, c, ch] == RenderedValue(
          if useAverageImageOverlay then old(averageImage[r, c, ch]) else Channel(frames[0][r][c], ch) as real,
          r, c, ch, height, width, heatmap, colorIntensityFactor, numVerticalDivisions, numHorizontalDivisions)
    {
      if useAverageImageOverlay {
        output := averageImage;
      } else {
        var first := frames[0];
        output := new real[height, width, 3]((r, c, ch) =>
          if 0 <= r < |first| && 0 <= c < |first[r]| && 0 <= ch < 3 then Channel(first[r][c], ch) as real else 0.0);
      }
      RenderInPlace(output, heatmap, colorIntensityFactor, numVerticalDivisions, numHorizontalDivisions);
    }
  }
}
