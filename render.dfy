/**
 * The colour of one pixel of a new column: a bin's level goes through
 * `dbTo01`; an intensity of exactly 0 is pure black, any other intensity `v`
 * is the table entry `(v * 255) | 0`, and every pixel is opaque.
 */
module Render {
  import opened JsNumber
  import opened Transfer
  import opened Palette

  /** A canvas pixel, as the four bytes of an `ImageData`. */
  datatype Rgba = Rgba(r: int, g: int, b: int, a: int)

  /** Opaque black: the colour of silence, and of a freshly allocated opaque canvas. */
  const OpaqueBlack: Rgba := Rgba(0, 0, 0, 255)

  /** Every channel of the pixel is a byte. */
  predicate IsBytes(p: Rgba) {
    0 <= p.r < 256 && 0 <= p.g < 256 && 0 <= p.b < 256 && 0 <= p.a < 256
  }

  /** `Math.max(0, Math.min(255, (v * 255) | 0))`: the table index of a non-zero intensity, by truncation. */
  function LutIndex(v: real): (idx: int)
    requires 0.0 <= v <= 1.0
    ensures 0 <= idx < 256
    ensures v < 1.0 ==> idx as real <= v * 255.0 < idx as real + 1.0
    ensures v == 1.0 ==> idx == 255
  {
    Max(0, Min(255, BitOrZero(v * 255.0)))
  }

  /** The pixel drawn for a bin whose level is `db`. */
  function PixelFor(db: real, maxDb: real, p: Params, shape: real -> real): (px: Rgba)
    requires maxDb > p.blackDb
    requires ValidShape(shape)
    ensures px.a == 255 && IsBytes(px)
    ensures (px.r == 0 && px.g == 0 && px.b == 0) <==> DbTo01(db, maxDb, p, shape) == 0.0
    ensures db <= p.blackDb ==> px == OpaqueBlack
    ensures db >= maxDb && p.cutoff <= 1.0 ==> px == Rgba(255, 255, 0, 255)
  {
    var v := DbTo01(db, maxDb, p, shape);
    if v == 0.0 then OpaqueBlack
    else
      var c := LutAt(LutIndex(v));
      Rgba(c.r, c.g, c.b, 255)
  }

  /** A non-zero intensity shows the table entry at the truncated index, never a rounded one. */
  lemma NonZeroUsesTruncatedIndex(db: real, maxDb: real, p: Params, shape: real -> real)
    requires maxDb > p.blackDb
    requires ValidShape(shape)
    requires DbTo01(db, maxDb, p, shape) != 0.0
    ensures exists idx :: (
      && 0 <= idx < 256
      && PixelFor(db, maxDb, p, shape) == Rgba(Lut()[idx].r, Lut()[idx].g, Lut()[idx].b, 255)
      && idx as real <= DbTo01(db, maxDb, p, shape) * 255.0
      && (DbTo01(db, maxDb, p, shape) < 1.0 ==> DbTo01(db, maxDb, p, shape) * 255.0 < idx as real + 1.0))
  {
    var v := DbTo01(db, maxDb, p, shape);
    var idx := LutIndex(v);
    assert PixelFor(db, maxDb, p, shape) == Rgba(Lut()[idx].r, Lut()[idx].g, Lut()[idx].b, 255);
  }

  /** The column for one frame: row `y` shows bin `rowToBin[y]` of `bins`. */
  function Column(bins: seq<real>, rowToBin: seq<u16>, maxDb: real, p: Params, shape: real -> real): (col: seq<Rgba>)
    requires maxDb > p.blackDb
    requires ValidShape(shape)
    requires forall y :: 0 <= y < |rowToBin| ==> rowToBin[y] as int < |bins|
    ensures |col| == |rowToBin|
    ensures forall y :: 0 <= y < |col| ==> col[y].a == 255 && IsBytes(col[y])
  {
    seq(|rowToBin|, y requires 0 <= y < |rowToBin| => PixelFor(bins[rowToBin[y]], maxDb, p, shape))
  }
}
