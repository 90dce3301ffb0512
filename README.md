# spectro.js rendering pipeline, in Dafny

`spectro.js` paints a live scrolling spectrogram. Each animation frame, an
analyser hands over one spectrum of levels in dB. The script shifts the canvas
one pixel to the left and paints the new spectrum as the rightmost column.
Row `y` of that column shows the bin `rowToBin[y]` chosen by a linear or
logarithmic frequency axis. The level's colour comes from a dB-to-intensity
transfer curve and a 256-entry colour table.

This project models that pipeline and proves what it promises.

- **`JsNumber`**: the JavaScript number operations the pipeline relies on:
  - `x | 0` (truncation, then 32-bit wrap-around);
  - `Math.round` (floor of x + 0.5);
  - stores into a `Uint16Array` (modulo 65536).
- **`Transfer`**: `dbTo01`, normalisation against `blackDb` and the analyser
  ceiling, clamping, cutoff and gamma shaping.
  - `Math.pow(t, 1.2)` is a parameter `shape`.
  - Of `shape`, only what the code relies on is assumed: it is monotone on
    [0, 1], maps 0 to 0 and maps 1 to 1.
- **`Palette`**: `lerp`, `lerp3`, `simpleMap`'s segment search over the three
  gradient stops, and the table `LUT`.
- **`AxisMap`**: `buildRowToBinMap`, as a method that fills a fresh array and
  the function it is proved against.
  - The log curve `exp(...) - 1` is a parameter `logCurve`.
  - Only the rounding and the clamp applied to the curve are relied on.
- **`Render`**: the colour of one pixel, and of one whole column.
- **`ScrollModel`**: the canvas as a value (a sequence of columns), and what
  the two operations that move its content do to it:
  - the one-column scroll of each frame, and its effect over any number of
    frames;
  - the restore geometry of `resize`.
- **`Spectrogram`**: the canvas and the view state as a class:
  - the bitmap `pixels` (an `array2`);
  - the column buffer `columnData`;
  - the map `rowToBin`;
  - the analyser's `binCount`;
  - the scale.

  Its methods are `setupAnalyser`, `start` once the microphone is open, the
  scale selector's handler, `drawColumn`, a run of `loop()` frames and the
  canvas part of `resize`. Each method is proved against the
  `ScrollModel` and `AxisMap` functions.

  The class invariant is the consistency the script maintains once an
  analyser exists. The map is exactly the one for the current height, bin
  count and scale, and the column buffer has one RGBA quadruple per row.
  That invariant is why `bins[rowToBin[y]]` is always in range.

The colouring follows the code: the table index is `(v * 255) | 0`, which
truncates; it is not rounded. (The code shows `LUT[0]` for a NaN level, since
`(NaN * 255) | 0` is 0; the model has no NaN, see "## Left out".)

## Model

| member | source | states |
|---|---|---|
| JsNumber.Min | spectro.js:82 | `Math.min` on integers is at most both arguments and equals one of them |
| JsNumber.Max | spectro.js:82 | `Math.max` on integers is at least both arguments and equals one of them |
| JsNumber.Trunc | spectro.js:48 | truncation goes toward zero: `n <= x < n + 1` for `x >= 0`, and `n - 1 < x <= n` for `x <= 0` |
| JsNumber.WrapInt32 | spectro.js:48 | the 32-bit wrap lands in [-2^31, 2^31), differs from its argument by a multiple of 2^32, and keeps every value already in range |
| JsNumber.BitOrZero | spectro.js:48 | the bitwise or with zero lies in the 32-bit signed range and truncates toward zero for every `x` in that range |
| JsNumber.Round | spectro.js:82 | `Math.round(x)` is the integer `n` with `n - 0.5 <= x < n + 0.5` |
| JsNumber.ToUint16 | spectro.js:78 | a `Uint16Array` store keeps values in [0, 65535] unchanged and wraps every other value modulo 65536 |
| JsNumber.RoundMonotone | spectro.js:82 | `Math.round` never decreases as its argument grows |
| JsNumber.RoundOfInteger | spectro.js:82 | `Math.round` of an integer is that integer |
| Transfer.Clamp01 | spectro.js:28 | the clamp lands in [0, 1]: 0 below, 1 above, the identity inside |
| Transfer.Normalized | spectro.js:23-28 | the normalised level is in [0, 1], exactly 0 at or below `blackDb` and exactly 1 at or above the ceiling |
| Transfer.DbTo01 | spectro.js:22-37 | the intensity is in [0, 1]; it is 0 for `db <= blackDb` and whenever the normalised level is under the cutoff; it is 1 for `db >= max` when the cutoff is at most 1 |
| Transfer.NormalizedMonotone | spectro.js:27-28 | a louder level never gets a smaller normalised value |
| Transfer.DbTo01Monotone | spectro.js:27-34 | for every cutoff and every monotone shaping fixing 0 and 1, the intensity never decreases as the level grows |
| Transfer.DefaultTransferEnds | spectro.js:16-37 | with `blackDb` -100, cutoff 0 and the -30 dB ceiling: -100 dB and below give 0, and -30 dB and above give 1 |
| Palette.Lerp | spectro.js:47 | `lerp` returns `a` at 0 and `b` at 1, and for x in [0, 1] lies between `a` and `b` |
| Palette.LerpChannel | spectro.js:48 | one channel of `lerp3` lies between its two end channels, and equals them at x = 0 and x = 1 |
| Palette.Lerp3 | spectro.js:48 | `lerp3` stays within any per-channel bounds that hold both end colours, and returns `c1` at 0 and `c2` at 1 |
| Palette.SegmentFraction | spectro.js:56 | the fraction along a segment is in [0, 1], 0 at its start and 1 at its end |
| Palette.Segment | spectro.js:53-59 | on increasing stops, the loop finds a segment (never falls through to `undefined`) for every `t` between the current stop and the last one |
| Palette.SimpleMap | spectro.js:50-60 | `simpleMap` is total: it returns a colour for every `t`, the first stop's for `t <= 0` and the last stop's for `t >= 1` |
| Palette.LutEntry | spectro.js:64-65 | table entry `i` lies channel by channel between black and white |
| Palette.Lut | spectro.js:63-66 | the table has 256 entries |
| Palette.SegmentWithin | spectro.js:53-59 | a colour found by the segment search lies, per channel, within any bounds holding every stop |
| Palette.SimpleMapWithin | spectro.js:41-60 | every colour of `simpleMap` lies within any bounds holding all three stops |
| Palette.LutEntryWithin | spectro.js:63-66 | every channel of every entry is in [0, 255], and green is at least 7 |
| Palette.LutFacts | spectro.js:41-66 | 256 entries, every channel in [0, 255], no entry black, `LUT[0]` = (12, 7, 134), `LUT[255]` = (255, 255, 0) |
| Palette.LutAt | spectro.js:63-66 | entry `i` with its byte range, its non-black green channel and the two end values |
| Palette.LutAt51 | spectro.js:41-66 | entry 51 (t = 0.2) is (7, 106, 182): 0.4 of the way from dark blue to cyan, truncated per channel |
| AxisMap.Frac | spectro.js:81 | the row fraction is in [0, 1]: 1 for the top row, 0 for the bottom row |
| AxisMap.LinearBin | spectro.js:82 | the linear bin is at most `binCount - 1`, and at least 0 when there is a bin |
| AxisMap.LogBin | spectro.js:86-93 | the log bin is at most `binCount - 1`, and at least 1 when there are two bins or more |
| AxisMap.RowEntry | spectro.js:81-93 | the stored entry is below `binCount` whenever 1 <= binCount <= 65536; in log mode with two rows and two bins or more it is at least 1 |
| AxisMap.RowToBinMap | spectro.js:77-97 | the map has one entry per row |
| AxisMap.BuildRowToBinMap | spectro.js:77-97 | the loop fills a fresh array of length `height` with exactly the map's entries |
| AxisMap.RowToBinInRange | spectro.js:77-97 | for 1 <= binCount <= 65536, in either mode and for every height, every entry is below `binCount` |
| AxisMap.LogRowToBinBounds | spectro.js:86-93 | log mode with at least two rows and two bins: every entry is in [1, binCount - 1] |
| AxisMap.LinearBinValue | spectro.js:82 | for a fraction in [0, 1], the clamp never fires: the bin is the rounded fraction of `binCount - 1` |
| AxisMap.LinearBinMonotone | spectro.js:82 | the linear bin never decreases as the fraction grows |
| AxisMap.FracAntitone | spectro.js:81 | lower rows have smaller fractions |
| AxisMap.LinearRowToBinShape | spectro.js:79-83 | linear mode, at least two rows: row 0 shows bin `binCount - 1`, the last row shows bin 0, and entries never increase going down |
| AxisMap.LogRowToBinMonotone | spectro.js:86-93 | log mode with a rising curve: entries never increase going down |
| AxisMap.LinearExample | spectro.js:79-83 | 4 rows over 8 bins, linear, give [7, 5, 2, 0] |
| AxisMap.SingleRowStoresZero | spectro.js:77-97 | with one row the 0/0 fraction makes the map [0] in either mode |
| AxisMap.NoBinsWrapsAround | spectro.js:78-83 | with no bins, linear mode stores -1, which the `Uint16Array` keeps as 65535 |
| Render.LutIndex | spectro.js:124 | the index is in [0, 255]; for v < 1 it is the truncation of `v * 255` (`idx <= v * 255 < idx + 1`); at v = 1 it is 255 |
| Render.PixelFor | spectro.js:115-131 | alpha is 255 and every channel a byte; the pixel is (0, 0, 0) exactly when the intensity is 0; `db <= blackDb` gives opaque black; `db >= max` gives (255, 255, 0) |
| Render.NonZeroUsesTruncatedIndex | spectro.js:121-125 | a non-zero intensity `v` shows `LUT[idx]`, where `idx` is the truncation of `v * 255` and not its rounding |
| Render.Column | spectro.js:115-132 | the new column has one opaque, byte-valued pixel per row, row `y` showing bin `rowToBin[y]` |
| ScrollModel.ScrollIn | spectro.js:113-133 | one frame: for x < W - 1, column x is old column x + 1; column W - 1 is the new column; the width is kept |
| ScrollModel.Ticks | spectro.js:136-139 | any number of frames keep the width |
| ScrollModel.TicksHistory | spectro.js:113-133 | after N frames, column W - 1 - k shows the frame from k frames ago for every k < min(N, W), and the columns left of those show the old content shifted N columns left |
| ScrollModel.TicksKeepHeight | spectro.js:113-133 | frames of the canvas height keep every column at that height |
| ScrollModel.RestoreBlit | spectro.js:225-236 | source and destination widths are both min(oldW, newW); both rectangles end at the right edges (`sx + sw == oldW`, `dx + dw == newW`); growing starts at source column 0; in the shrink branch `srcW == newW` |
| ScrollModel.SourceRow | spectro.js:230-235 | the sampled snapshot row exists, and is row `y` itself when the height is unchanged |
| ScrollModel.CentreRow | spectro.js:230-235 | the row under the centre of a destination row lies in [0, oldH), and is `y` for equal heights |
| ScrollModel.Restored | spectro.js:203-236 | the canvas after a resize is `newW` columns of `newH` rows |
| ScrollModel.RestoreRightAnchored | spectro.js:227-236 | for equal heights, new column newW - 1 - k is old column oldW - 1 - k for every k < min(oldW, newW) |
| ScrollModel.RestoreGrowLeavesLeftBlack | spectro.js:229-230 | growing leaves columns [0, newW - oldW) unwritten (opaque black) |
| ScrollModel.NoSnapshotAllBlack | spectro.js:203-223 | with zero old width or height nothing is restored: the new canvas is all opaque black |
| ScrollModel.RestoreSameSizeIdentity | spectro.js:225-236 | resizing to the same width and height gives back exactly the same pixels |
| Spectrogram.ValidFftSize | spectro.js:100 | an accepted transform size is even, and its bin count is in [16, 16384] |
| Spectrogram.ShiftLeft | spectro.js:113 | the in-place scroll: each column but the last becomes its right neighbour's old content, and the last keeps its pixels |
| Spectrogram.RowColour | spectro.js:118-125 | the three channels are exactly the pixel `PixelFor` specifies: pure black for intensity 0, otherwise the table entry at the truncated index |
| Spectrogram.StorePixel | spectro.js:127-131 | the four bytes at `4 * y` become the colour with alpha 255, and every other row of the buffer keeps its bytes |
| Spectrogram.FillColumn | spectro.js:115-132 | after the row loop, the four bytes at `4 * y` of the buffer are the colour of bin `rowToBin[y]` |
| Spectrogram.PutColumn | spectro.js:133 | `putImageData` writes the buffer into one column and changes nothing else |
| Spectrogram.DrawImage | spectro.js:230-235 | the restore's `drawImage` writes the snapshot rectangle into the destination columns and leaves every other pixel as it was |
| Spectrogram.RestoreSnapshot | spectro.js:216-237 | the new bitmap is exactly the restored image of the snapshot |
| Spectrogram.Spectrogram.constructor | spectro.js:1-13 | an all-black opaque canvas of the given size, no analyser yet, fresh arrays, and the invariant holds |
| Spectrogram.Spectrogram.Setup | spectro.js:99-107 | `binCount` is `fftSize / 2`; a fresh buffer and a fresh map rebuilt for the canvas height, bin count and scale; the canvas is untouched; the invariant is kept |
| Spectrogram.Spectrogram.Start | spectro.js:141-162 | after `setupAnalyser` and the first frame, the map is the one for the canvas height, the bin count and the scale, and the canvas is the old one scrolled once with the first frame's column at the right edge |
| Spectrogram.Spectrogram.SetScale | spectro.js:186-190 | the scale changes; the map is rebuilt (as a fresh array) only when an analyser exists; the canvas and the column buffer stay as they were; the invariant is kept |
| Spectrogram.Spectrogram.DrawColumn | spectro.js:109-134 | the new canvas is the old one scrolled left by one column, with the column for `bins` and the current map at the right edge; the invariant is kept |
| Spectrogram.Spectrogram.RunFrames | spectro.js:136-139 | any run of frames leaves the canvas equal to the frames' columns scrolled in one after the other, and keeps the invariant |
| Spectrogram.Spectrogram.Resize | spectro.js:193-244 | the new canvas is a fresh bitmap holding the restored image of the old one at the new size; when an analyser exists, a fresh buffer and map are built for the new height; the invariant is kept |
| Spectrogram.FramesAcrossResize | spectro.js:141-244 | a new canvas, `start`, a resize to the same size and one more frame compose: the two frames' columns are the two rightmost columns, and every column left of them is opaque black |
| Spectrogram.FrameAfterScaleChange | spectro.js:141-190 | a new canvas, `start`, a scale change and one more frame compose: the first frame's column, drawn with the old map, and the second's, drawn with the rebuilt map, are the two rightmost columns; every column left of them is opaque black; the map is the one for the new scale |

## Left out

- Audio capture and analysis are external: `getUserMedia`, `AudioContext`, the analyser node, `getFloatFrequencyData`, and `start`/`stop` teardown. Each frame's levels are the `bins` parameter of `DrawColumn`. The `configured` field stands for "an analyser exists".
- The `requestAnimationFrame` loop, the buttons, the info text and the transform-size selector's handler are scheduling and UI. When an analyser exists, that handler is `Setup`.
- `createImageBitmap` and its fallback canvas are not modelled: the old bitmap, taken at the moment of the resize, serves as the snapshot. The device-pixel-ratio sizing (`Math.floor(cssW * dpr)`) is not modelled either: the new width and height are parameters of `Resize`.
- Spectrogram.Spectrogram.Resize: the resize is atomic in the model. In the script, `resize` awaits `createImageBitmap` (spectro.js:205) before it resizes the canvas, and `loop()` may draw frames in between. Those frames are missing from the snapshot and are lost when `canvas.width` is reassigned (spectro.js:216). The model does not capture that loss.
- Spectrogram.Spectrogram.DrawColumn: on a canvas with zero width or zero height, the self-`drawImage` of the scroll throws and the animation loop stops. The model requires a non-empty canvas and does not model the stopped loop.
- `createImageData` throws for a zero height in browsers. The model allocates an empty column buffer instead.
- Spectrogram.DrawImage: when the height changes, the browser's vertical scaling of `drawImage` is modelled as nearest-neighbour sampling at row centres. The browser's own scaling algorithm is not specified. The restore properties are proved for equal heights, where no scaling happens.
- `Math.pow`, `Math.exp` and `Math.log` are the abstract parameters `shape` and `logCurve`, not their exact floating-point values.
- IEEE-754 rounding is not modelled. Numbers are exact reals, so values such as `i / 255` and truncation near an integer (for example at i = 85) may differ from the floating-point results.
- NaN and -Infinity levels are not modelled. A -Infinity level behaves like any level at or below `blackDb` (black).
- Transfer.DbTo01: the value 1 at `db >= max` is stated only for cutoffs of at most 1. With a larger cutoff the code returns 0 there, which the cutoff clause states.
- The commented-out `turbo` polynomial is not part of the running code.
