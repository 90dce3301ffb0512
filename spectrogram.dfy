/**
 * The scrolling canvas and its view state: the pixel bitmap, the column
 * buffer (`columnImageData`), the row-to-bin map (`rowToBin`) and the
 * analyser configuration it was built for. Each method is one of the
 * script's state changes: `setupAnalyser`, the scale selector's handler,
 * `drawColumn` and the restore part of `resize`.
 *
 * The object invariant is the consistency the script keeps by rebuilding
 * the map whenever the height, the bin count or the scale changes: once an
 * analyser exists, the map is exactly the one for the current height, bin
 * count and scale, so every entry indexes an existing bin.
 */
module Spectrogram {
  import opened JsNumber
  import opened Transfer
  import opened Palette
  import opened Render
  import opened AxisMap
  import opened ScrollModel

  /** Pixels the canvas scrolls per frame. */
  const ColumnWidth: nat := 1

  /**
   * The transform sizes an `AnalyserNode` accepts: powers of two from 32 to
   * 32768. Half of one, the bin count, always fits the `Uint16Array` map.
   */
  function ValidFftSize(n: int): (ok: bool)
    ensures ok ==> n == 2 * (n / 2) && 16 <= n / 2 <= 16384
  {
    n in {32, 64, 128, 256, 512, 1024, 2048, 4096, 8192, 16384, 32768}
  }

  /** The pixel stored at row `y` of a column buffer: its four bytes from offset `4 * y`. */
  ghost function ColumnPixelAt(data: array<u8>, y: nat): Rgba
    requires 4 * y + 3 < data.Length
    reads data
  {
    Rgba(data[4 * y] as int, data[4 * y + 1] as int, data[4 * y + 2] as int, data[4 * y + 3] as int)
  }

  /**
   * `drawImage` of a snapshot onto the canvas without horizontal scaling:
   * source columns [sx, sx + w) go to destination columns [dx, dx + w), each
   * destination row showing the source row under its centre; nothing else
   * is touched.
   */
  method DrawImage(src: array2<Rgba>, sx: nat, dst: array2<Rgba>, dx: nat, w: nat)
    requires src != dst
    requires sx + w <= src.Length0 && dx + w <= dst.Length0
    requires src.Length1 > 0
    modifies dst
    ensures forall x, y :: 0 <= x < dst.Length0 && 0 <= y < dst.Length1 ==>
      dst[x, y] == if dx <= x < dx + w then src[x - dx + sx, SourceRow(y, src.Length1, dst.Length1)] else old(dst[x, y])
  {
    var h := dst.Length1;
    for i := 0 to w
      invariant forall x, y :: 0 <= x < dst.Length0 && 0 <= y < h ==>
        dst[x, y] == if dx <= x < dx + i then src[x - dx + sx, SourceRow(y, src.Length1, h)] else old(dst[x, y])
    {
      for y := 0 to h
        invariant forall x, y' :: 0 <= x < dst.Length0 && 0 <= y' < h ==>
          dst[x, y'] == if dx <= x < dx + i || (x == dx + i && y' < y)
                        then src[x - dx + sx, SourceRow(y', src.Length1, h)] else old(dst[x, y'])
      {
        dst[dx + i, y] := src[sx + i, SourceRow(y, src.Length1, h)];
      }
    }
  }

  /**
   * The scroll of `drawColumn`, the self-copy `drawImage(canvas, 1, 0, W - 1,
   * H, 0, 0, W - 1, H)`: every column but the first moves one to the left;
   * the last column keeps its pixels until the new column is put there.
   */
  method ShiftLeft(canvas: array2<Rgba>)
    modifies canvas
    ensures forall i, j :: 0 <= i < canvas.Length0 && 0 <= j < canvas.Length1 ==>
      canvas[i, j] == if i + ColumnWidth < canvas.Length0 then old(canvas[i + ColumnWidth, j]) else old(canvas[i, j])
  {
    var w, h := canvas.Length0, canvas.Length1;
    var x := 0;
    while x + ColumnWidth < w
      invariant 0 <= x && (w == 0 || x < w)
      invariant forall i, j :: 0 <= i < w && 0 <= j < h ==>
        canvas[i, j] == if i < x then old(canvas[i + 1, j]) else old(canvas[i, j])
    {
      for y := 0 to h
        invariant forall i, j :: 0 <= i < w && 0 <= j < h ==>
          canvas[i, j] == if i < x || (i == x && j < y) then old(canvas[i + 1, j]) else old(canvas[i, j])
      {
        canvas[x, y] := canvas[x + 1, y];
      }
      x := x + 1;
    }
  }

  /**
   * The colour of one row in `drawColumn`: pure black for an intensity of
   * exactly 0, otherwise the table entry at the truncated index.
   */
  method RowColour(db: real, p: Params, shape: real -> real) returns (r: u8, g: u8, b: u8)
    requires AnalyserMaxDb > p.blackDb && ValidShape(shape)
    ensures Rgba(r as int, g as int, b as int, 255) == PixelFor(db, AnalyserMaxDb, p, shape)
  {
    var v := DbTo01(db, AnalyserMaxDb, p, shape);
    if v == 0.0 {
      r, g, b := 0, 0, 0;
    } else {
      var c := LutAt(LutIndex(v));
      r, g, b := c.r as u8, c.g as u8, c.b as u8;
    }
  }

  /** The four stores of one row's colour into the column buffer, at offset `4 * y`; the other rows keep their bytes. */
  method StorePixel(data: array<u8>, y: nat, r: u8, g: u8, b: u8)
    requires 4 * y + 3 < data.Length
    modifies data
    ensures ColumnPixelAt(data, y) == Rgba(r as int, g as int, b as int, 255)
    ensures forall j :: 0 <= j && 4 * j + 3 < data.Length && j != y ==> ColumnPixelAt(data, j) == old(ColumnPixelAt(data, j))
  {
    var i := (y * ColumnWidth) * 4;
    assert i == 4 * y;
    data[i + 0] := r;
    data[i + 1] := g;
    data[i + 2] := b;
    data[i + 3] := 255;
  }

  /**
   * The pixel loop of `drawColumn`: row `y` of the column buffer gets the
   * colour of bin `rowToBin[y]`, as four bytes at offset `4 * y`.
   */
  method FillColumn(data: array<u8>, bins: seq<real>, rowToBin: array<u16>, p: Params, shape: real -> real)
    requires AnalyserMaxDb > p.blackDb && ValidShape(shape)
    requires data.Length == 4 * ColumnWidth * rowToBin.Length
    requires forall y :: 0 <= y < rowToBin.Length ==> rowToBin[y] as int < |bins|
    modifies data
    ensures forall y :: 0 <= y < rowToBin.Length ==>
      ColumnPixelAt(data, y) == Column(bins, rowToBin[..], AnalyserMaxDb, p, shape)[y]
  {
    ghost var col := Column(bins, rowToBin[..], AnalyserMaxDb, p, shape);
    for y := 0 to rowToBin.Length
      invariant forall j :: 0 <= j < y ==> ColumnPixelAt(data, j) == col[j]
    {
      var binIdx := rowToBin[y];
      var r, g, b := RowColour(bins[binIdx], p, shape);
      assert col[y] == PixelFor(bins[binIdx], AnalyserMaxDb, p, shape);
      StorePixel(data, y, r, g, b);
    }
  }

  /** `putImageData(columnImageData, x, 0)`: column `x` gets the buffer's pixels; nothing else changes. */
  method PutColumn(canvas: array2<Rgba>, data: array<u8>, x: nat)
    requires x < canvas.Length0
    requires data.Length == 4 * ColumnWidth * canvas.Length1
    modifies canvas
    ensures forall i, j :: 0 <= i < canvas.Length0 && 0 <= j < canvas.Length1 ==>
      canvas[i, j] == if i == x then ColumnPixelAt(data, j) else old(canvas[i, j])
  {
    for y := 0 to canvas.Length1
      invariant forall i, j :: 0 <= i < canvas.Length0 && 0 <= j < canvas.Length1 ==>
        canvas[i, j] == if i == x && j < y then ColumnPixelAt(data, j) else old(canvas[i, j])
    {
      canvas[x, y] := Rgba(data[4 * y] as int, data[4 * y + 1] as int, data[4 * y + 2] as int, data[4 * y + 3] as int);
    }
  }

  /** The content of a bitmap as a value: its columns, left to right. */
  ghost function ImageOf(a: array2<Rgba>): (img: Image)
    reads a
    ensures |img| == a.Length0 && HasHeight(img, a.Length1)
    ensures forall x, y :: 0 <= x < a.Length0 && 0 <= y < a.Length1 ==> img[x][y] == a[x, y]
  {
    seq(a.Length0, x requires 0 <= x < a.Length0 reads a =>
      seq(a.Length1, y requires 0 <= y < a.Length1 reads a => a[x, y]))
  }

  /** A bitmap that agrees pixel by pixel with an image of its size has that image as its content. */
  lemma ImageOfEquals(a: array2<Rgba>, img: Image)
    requires |img| == a.Length0 && HasHeight(img, a.Length1)
    requires forall x, y :: 0 <= x < a.Length0 && 0 <= y < a.Length1 ==> a[x, y] == img[x][y]
    ensures ImageOf(a) == img
  {
    forall x | 0 <= x < a.Length0
      ensures ImageOf(a)[x] == img[x]
    {
      assert forall y :: 0 <= y < a.Length1 ==> ImageOf(a)[x][y] == img[x][y];
    }
  }

  /**
   * A bitmap whose columns but the last are those of `before` moved one to the
   * left, and whose last column is `col`, shows `before` scrolled by `col`.
   */
  lemma ScrolledCanvas(a: array2<Rgba>, before: Image, col: seq<Rgba>)
    requires |before| == a.Length0 && HasHeight(before, a.Length1) && |col| == a.Length1
    requires forall i, j :: 0 <= i < a.Length0 - 1 && 0 <= j < a.Length1 ==> a[i, j] == before[i + 1][j]
    requires forall j :: 0 <= j < a.Length1 && a.Length0 > 0 ==> a[a.Length0 - 1, j] == col[j]
    ensures ImageOf(a) == ScrollIn(before, col)
  {
    var expected := ScrollIn(before, col);
    forall i, j | 0 <= i < a.Length0 && 0 <= j < a.Length1
      ensures a[i, j] == expected[i][j]
    {
      if i < a.Length0 - 1 {
        assert expected[i] == before[i + 1];
      } else {
        assert expected[i] == col;
      }
    }
    ImageOfEquals(a, expected);
  }

  /** Proof helper for `RestoreSnapshot`: `Restored` unfolded at pixel `(x, y)`. */
  lemma RestoredPixel(img: Image, oldH: nat, newW: nat, newH: nat, x: nat, y: nat)
    requires HasHeight(img, oldH) && x < newW && y < newH
    ensures var b := RestoreBlit(|img|, newW);
      Restored(img, oldH, newW, newH)[x][y] ==
        if |img| != 0 && oldH != 0 && b.dx <= x < b.dx + b.dw
        then img[x - b.dx + b.sx][SourceRow(y, oldH, newH)]
        else OpaqueBlack
  {
  }

  /**
   * The restore of `resize()`: a new opaque-black `newW` x `newH` bitmap onto
   * which the snapshot, when it has any pixels, is drawn back anchored to the
   * right edge.
   */
  method RestoreSnapshot(snapshot: array2<Rgba>, newW: nat, newH: nat) returns (canvas: array2<Rgba>)
    ensures fresh(canvas)
    ensures canvas.Length0 == newW && canvas.Length1 == newH
    ensures ImageOf(canvas) == Restored(ImageOf(snapshot), snapshot.Length1, newW, newH)
  {
    var oldW, oldH := snapshot.Length0, snapshot.Length1;
    canvas := new Rgba[newW, newH]((x, y) => OpaqueBlack);
    var b := RestoreBlit(oldW, newW);
    if oldW != 0 && oldH != 0 {
      DrawImage(snapshot, b.sx, canvas, b.dx, b.dw);
    }
    ghost var oldImg := ImageOf(snapshot);
    ghost var expected := Restored(oldImg, oldH, newW, newH);
    forall x, y | 0 <= x < newW && 0 <= y < newH
      ensures canvas[x, y] == expected[x][y]
    {
      RestoredPixel(oldImg, oldH, newW, newH, x, y);
    }
    ImageOfEquals(canvas, expected);
  }

  class Spectrogram {
    /** The canvas bitmap, `pixels[x, y]`; its dimensions are the canvas width and height. */
    var pixels: array2<Rgba>
    /** `columnImageData.data`: one column of RGBA bytes. */
    var columnData: array<u8>
    /** `rowToBin`: the bin shown by each row. */
    var rowToBin: array<u16>
    /** Whether an analyser exists (it is created on the first start and kept afterwards). */
    var configured: bool
    /** The analyser's `frequencyBinCount`. */
    var binCount: nat
    /** The scale selector's value. */
    var scale: Scale
    /** The transfer parameters. */
    const params: Params
    /** `t => Math.pow(t, params.gamma)`. */
    const shape: real -> real
    /** `(binCount, frac) => Math.exp(logMin + frac * (logMax - logMin)) - 1`. */
    const logCurve: (int, real) -> real

    ghost predicate Valid()
      reads this, rowToBin
    {
      && ValidShape(shape)
      && AnalyserMaxDb > params.blackDb
      && (configured ==>
           && ValidFftSize(2 * binCount)
           && columnData.Length == 4 * ColumnWidth * pixels.Length1
           && rowToBin[..] == RowToBinMap(pixels.Length1, binCount, scale, logCurve)
           && (forall y :: 0 <= y < rowToBin.Length ==> rowToBin[y] as int < binCount))
    }

    /** The canvas content as a value: its columns, left to right. */
    ghost function Image(): (img: Image)
      reads this, pixels
      ensures |img| == pixels.Length0 && HasHeight(img, pixels.Length1)
    {
      ImageOf(pixels)
    }

    /** A `width` x `height` opaque canvas, all black, with no analyser yet. */
    constructor (width: nat, height: nat, initialScale: Scale, shape: real -> real, logCurve: (int, real) -> real)
      requires ValidShape(shape)
      ensures Valid() && !configured && scale == initialScale
      ensures this.shape == shape && this.logCurve == logCurve && params == DefaultParams
      ensures pixels.Length0 == width && pixels.Length1 == height
      ensures forall x, y :: 0 <= x < width && 0 <= y < height ==> pixels[x, y] == OpaqueBlack
      ensures fresh(pixels) && fresh(columnData) && fresh(rowToBin)
    {
      pixels := new Rgba[width, height]((x, y) => OpaqueBlack);
      columnData := new u8[0];
      rowToBin := new u16[0];
      configured := false;
      binCount := 0;
      scale := initialScale;
      params := DefaultParams;
      this.shape := shape;
      this.logCurve := logCurve;
    }

    /**
     * `setupAnalyser(fftSize)`: the analyser gets the transform size (and the
     * -100 .. -30 dB range), and the column buffer and the map are rebuilt
     * for it. The canvas is not touched.
     */
    method Setup(fftSize: nat)
      requires Valid()
      requires ValidFftSize(fftSize)
      modifies this
      ensures Valid() && configured
      ensures binCount == fftSize / 2 && scale == old(scale)
      ensures pixels == old(pixels) && unchanged(pixels)
      ensures rowToBin[..] == RowToBinMap(pixels.Length1, binCount, scale, logCurve)
      ensures fresh(columnData) && fresh(rowToBin)
    {
      binCount := fftSize / 2;
      configured := true;
      columnData := new u8[4 * ColumnWidth * pixels.Length1];
      rowToBin := BuildRowToBinMap(pixels.Length1, binCount, scale, logCurve);
      RowToBinInRange(pixels.Length1, binCount, scale, logCurve);
    }

    /** The scale selector's handler: the new scale is kept, and the map rebuilt when an analyser exists. */
    method SetScale(s: Scale)
      requires Valid()
      modifies this
      ensures Valid() && scale == s
      ensures configured == old(configured) && binCount == old(binCount)
      ensures pixels == old(pixels) && unchanged(pixels) && columnData == old(columnData)
      ensures !configured ==> rowToBin == old(rowToBin)
      ensures configured ==> fresh(rowToBin)
    {
      scale := s;
      if configured {
        rowToBin := BuildRowToBinMap(pixels.Length1, binCount, scale, logCurve);
        RowToBinInRange(pixels.Length1, binCount, scale, logCurve);
      }
    }

    /**
     * `drawColumn()` for one frame of `bins` (the analyser's levels in dB):
     * the canvas scrolls left by one column and the new column, row `y`
     * coloured from `bins[rowToBin[y]]`, is written at the right edge. On a
     * canvas with no pixels the script's self-`drawImage` throws, so a frame
     * needs a non-empty canvas.
     */
    method DrawColumn(bins: seq<real>)
      requires Valid() && configured
      requires pixels.Length0 > 0 && pixels.Length1 > 0
      requires |bins| == binCount
      modifies pixels, columnData
      ensures Valid()
      ensures Image() == ScrollIn(old(Image()), Column(bins, rowToBin[..], AnalyserMaxDb, params, shape))
    {
      ghost var before := ImageOf(pixels);
      ghost var col := Column(bins, rowToBin[..], AnalyserMaxDb, params, shape);
      var w, h := pixels.Length0, pixels.Length1;
      ShiftLeft(pixels);
      ghost var shifted := ImageOf(pixels);
      assert forall i, j :: 0 <= i < w - 1 && 0 <= j < h ==> shifted[i][j] == before[i + 1][j];
      FillColumn(columnData, bins, rowToBin, params, shape);
      PutColumn(pixels, columnData, w - ColumnWidth);
      assert forall i, j :: 0 <= i < w - 1 && 0 <= j < h ==> pixels[i, j] == shifted[i][j];
      ScrolledCanvas(pixels, before, col);
    }

    /**
     * The canvas part of `resize()` to `newW` x `newH`: a new opaque-black
     * bitmap, the old content drawn back anchored to the right edge when there
     * was any, and the column buffer and the map rebuilt for the new height
     * when an analyser exists.
     */
    method Resize(newW: nat, newH: nat)
      requires Valid()
      modifies this
      ensures Valid()
      ensures configured == old(configured) && binCount == old(binCount) && scale == old(scale)
      ensures pixels.Length0 == newW && pixels.Length1 == newH
      ensures Image() == Restored(old(Image()), old(pixels.Length1), newW, newH)
      ensures !configured ==> rowToBin == old(rowToBin)
      ensures fresh(pixels) && (configured ==> fresh(columnData) && fresh(rowToBin))
    {
      // the old bitmap is never written again: it serves as the snapshot
      pixels := RestoreSnapshot(pixels, newW, newH);
      if configured {
        columnData := new u8[4 * ColumnWidth * newH];
        rowToBin := BuildRowToBinMap(newH, binCount, scale, logCurve);
        RowToBinInRange(newH, binCount, scale, logCurve);
      }
    }

    /**
     * `start()` once the microphone is open: `setupAnalyser(fftSize)`, then
     * the first frame of `loop()`, drawn with the freshly built map.
     */
    method Start(fftSize: nat, bins: seq<real>)
      requires Valid()
      requires ValidFftSize(fftSize) && |bins| == fftSize / 2
      requires pixels.Length0 > 0 && pixels.Length1 > 0
      modifies this, pixels
      ensures Valid() && configured && binCount == fftSize / 2 && scale == old(scale)
      ensures pixels == old(pixels) && fresh(columnData) && fresh(rowToBin)
      ensures rowToBin[..] == RowToBinMap(pixels.Length1, binCount, scale, logCurve)
      ensures Image() == ScrollIn(old(Image()), Column(bins, rowToBin[..], AnalyserMaxDb, params, shape))
    {
      Setup(fftSize);
      DrawColumn(bins);
    }

    /** The columns a run of frames draws under the current map, oldest first. */
    ghost function FrameColumns(frames: seq<seq<real>>): (cols: seq<seq<Rgba>>)
      requires Valid() && configured
      requires forall k :: 0 <= k < |frames| ==> |frames[k]| == binCount
      reads this, rowToBin
      ensures |cols| == |frames|
      ensures forall k :: 0 <= k < |frames| ==> cols[k] == Column(frames[k], rowToBin[..], AnalyserMaxDb, params, shape)
    {
      var m := rowToBin[..];
      seq(|frames|, k requires 0 <= k < |frames| => Column(frames[k], m, AnalyserMaxDb, params, shape))
    }

    /**
     * `loop()` over a run of frames: one `drawColumn` per frame, oldest first.
     * The canvas ends up as `Ticks` of the frames' columns, so by
     * `TicksHistory` column W - 1 - k shows the frame from k frames ago.
     */
    method RunFrames(frames: seq<seq<real>>)
      requires Valid() && configured
      requires pixels.Length0 > 0 && pixels.Length1 > 0
      requires forall k :: 0 <= k < |frames| ==> |frames[k]| == binCount
      modifies pixels, columnData
      ensures Valid()
      ensures Image() == Ticks(old(Image()), FrameColumns(frames))
    {
      ghost var cols := FrameColumns(frames);
      for n := 0 to |frames|
        invariant Valid()
        invariant Image() == Ticks(old(Image()), cols[..n])
      {
        DrawColumn(frames[n]);
        assert cols[..n + 1][..n] == cols[..n];
      }
      assert cols[..|frames|] == cols;
    }
  }

  /**
   * The script's own order of events on a `width` x `height` canvas: start
   * (`setupAnalyser` and the first frame), a window resize that keeps the
   * size, and a second frame. The resize loses nothing: the two frames sit side by side
   * at the right edge, and the rest of the canvas is still black.
   */
  method FramesAcrossResize(width: nat, height: nat, scale: Scale, shape: real -> real, logCurve: (int, real) -> real,
                            fftSize: nat, first: seq<real>, second: seq<real>) returns (s: Spectrogram)
    requires ValidShape(shape) && ValidFftSize(fftSize)
    requires 2 <= width && 1 <= height
    requires |first| == fftSize / 2 && |second| == fftSize / 2
    ensures s.Valid() && s.configured && s.binCount == fftSize / 2
    ensures s.pixels.Length0 == width && s.pixels.Length1 == height
    ensures s.rowToBin[..] == RowToBinMap(height, fftSize / 2, scale, logCurve)
    ensures s.Image()[width - 2] == Column(first, s.rowToBin[..], AnalyserMaxDb, s.params, s.shape)
    ensures s.Image()[width - 1] == Column(second, s.rowToBin[..], AnalyserMaxDb, s.params, s.shape)
    ensures forall x, y :: 0 <= x < width - 2 && 0 <= y < height ==> s.Image()[x][y] == OpaqueBlack
  {
    s := new Spectrogram(width, height, scale, shape, logCurve);
    ghost var blank := s.Image();
    s.Start(fftSize, first);
    ghost var m := s.rowToBin[..];
    ghost var afterFirst := s.Image();
    s.Resize(width, height);
    RestoreSameSizeIdentity(afterFirst, height);
    assert s.Image() == afterFirst && s.rowToBin[..] == m;
    s.DrawColumn(second);
    TwoFramesOnBlank(blank, Column(first, m, AnalyserMaxDb, s.params, s.shape),
                     Column(second, m, AnalyserMaxDb, s.params, s.shape), height);
  }

  /**
   * A scale change between two frames. The script reaches this order when
   * stop is pressed while `start()` still waits for the microphone: `stop()`
   * re-enables the scale selector, and `start()` then runs `loop()` anyway.
   * The first frame is drawn with the old map, the second with the rebuilt
   * one, into the same column buffer.
   */
  method FrameAfterScaleChange(width: nat, height: nat, scale: Scale, newScale: Scale,
                               shape: real -> real, logCurve: (int, real) -> real,
                               fftSize: nat, first: seq<real>, second: seq<real>) returns (s: Spectrogram)
    requires ValidShape(shape) && ValidFftSize(fftSize)
    requires 2 <= width && 1 <= height
    requires |first| == fftSize / 2 && |second| == fftSize / 2
    ensures s.Valid() && s.configured && s.scale == newScale
    ensures s.pixels.Length0 == width && s.pixels.Length1 == height
    ensures s.rowToBin[..] == RowToBinMap(height, fftSize / 2, newScale, logCurve)
    ensures s.Image()[width - 2] ==
      Column(first, RowToBinMap(height, fftSize / 2, scale, logCurve), AnalyserMaxDb, s.params, s.shape)
    ensures s.Image()[width - 1] == Column(second, s.rowToBin[..], AnalyserMaxDb, s.params, s.shape)
    ensures forall x, y :: 0 <= x < width - 2 && 0 <= y < height ==> s.Image()[x][y] == OpaqueBlack
  {
    s := new Spectrogram(width, height, scale, shape, logCurve);
    ghost var blank := s.Image();
    s.Start(fftSize, first);
    ghost var col1 := Column(first, s.rowToBin[..], AnalyserMaxDb, s.params, s.shape);
    s.SetScale(newScale);
    s.DrawColumn(second);
    TwoFramesOnBlank(blank, col1, Column(second, s.rowToBin[..], AnalyserMaxDb, s.params, s.shape), height);
  }

  /** Proof helper for `FramesAcrossResize` and `FrameAfterScaleChange`: two frames scrolled onto a black image. */
  lemma TwoFramesOnBlank(blank: Image, col1: seq<Rgba>, col2: seq<Rgba>, h: nat)
    requires |blank| >= 2 && HasHeight(blank, h)
    requires forall x, y :: 0 <= x < |blank| && 0 <= y < h ==> blank[x][y] == OpaqueBlack
    ensures var r := ScrollIn(ScrollIn(blank, col1), col2);
      && r[|blank| - 2] == col1 && r[|blank| - 1] == col2
      && forall x, y :: 0 <= x < |blank| - 2 && 0 <= y < h ==> r[x][y] == OpaqueBlack
  {
    var r1 := ScrollIn(blank, col1);
    var r := ScrollIn(r1, col2);
    assert forall x :: 0 <= x < |blank| - 2 ==> r[x] == blank[x + 2];
  }
}
