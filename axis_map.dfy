/**
 * The frequency axis: for a canvas of `height` rows and an analyser with
 * `binCount` bins, `buildRowToBinMap` fills a `Uint16Array` with the bin
 * each row shows, row 0 (the top) showing the highest frequency.
 *
 * Linear mode is exact: the row's fraction of the way up, times the top bin,
 * rounded. Log mode maps the fraction through `exp`/`log`; that curve is the
 * parameter `logCurve(binCount, frac)`, standing for
 * `exp(log(2) + frac * (log(binCount) - log(2))) - 1`, and only the clamp
 * applied to its rounded value is relied on.
 */
module AxisMap {
  import opened JsNumber
  import opened Arith

  /** The value of the scale selector: `'linear'`, or anything else, which is logarithmic. */
  datatype Scale = Linear | Log

  /** `(height - 1 - y) / (height - 1)` for a canvas of at least two rows. */
  function Frac(height: nat, y: nat): (f: real)
    requires 2 <= height && y < height
    ensures 0.0 <= f <= 1.0
    ensures y == 0 ==> f == 1.0
    ensures y == height - 1 ==> f == 0.0
  {
    QuotientBelow(0.0, (height - 1 - y) as real, (height - 1) as real);
    QuotientBelow((height - 1 - y) as real, (height - 1) as real, (height - 1) as real);
    (height - 1 - y) as real / (height - 1) as real
  }

  /** The linear bin for a fraction `frac` of the way up: `Math.round(frac * (binCount - 1))` clamped to [0, binCount - 1]. */
  function LinearBin(binCount: int, frac: real): (bin: int)
    ensures bin <= binCount - 1
    ensures binCount >= 1 ==> 0 <= bin
  {
    var top := binCount - 1;
    Min(top, Max(0, Round(frac * top as real)))
  }

  /** The log bin: the curve's value rounded and clamped to [minBin, maxBin] = [1, binCount - 1]. */
  function LogBin(binCount: int, frac: real, logCurve: (int, real) -> real): (bin: int)
    ensures bin <= binCount - 1
    ensures binCount >= 2 ==> 1 <= bin
  {
    var minBin, maxBin := 1, binCount - 1;
    Min(maxBin, Max(minBin, Round(logCurve(binCount, frac))))
  }

  /**
   * The entry stored for row `y`. With a single row the fraction is 0/0, a
   * NaN that `Math.round`, `Math.max` and `Math.min` pass on and that the
   * `Uint16Array` stores as 0.
   */
  function RowEntry(height: nat, binCount: nat, scale: Scale, logCurve: (int, real) -> real, y: nat): (e: u16)
    requires y < height
    ensures 1 <= binCount <= 0x1_0000 ==> e as int < binCount
    ensures 2 <= height && 2 <= binCount <= 0x1_0000 && scale == Log ==> 1 <= e
  {
    if height == 1 then 0
    else
      match scale
      case Linear => ToUint16(LinearBin(binCount, Frac(height, y)))
      case Log => ToUint16(LogBin(binCount, Frac(height, y), logCurve))
  }

  /** The whole map `buildRowToBinMap(height, binCount, scale)` returns. */
  function RowToBinMap(height: nat, binCount: nat, scale: Scale, logCurve: (int, real) -> real): (m: seq<u16>)
    ensures |m| == height
  {
    seq(height, y requires 0 <= y < height => RowEntry(height, binCount, scale, logCurve, y))
  }

  /** `buildRowToBinMap(height, binCount, type)`: a fresh `Uint16Array` filled row by row. */
  method BuildRowToBinMap(height: nat, binCount: nat, scale: Scale, logCurve: (int, real) -> real)
    returns (m: array<u16>)
    ensures fresh(m)
    ensures m[..] == RowToBinMap(height, binCount, scale, logCurve)
  {
    m := new u16[height];
    for y := 0 to height
      invariant forall j :: 0 <= j < y ==> m[j] == RowEntry(height, binCount, scale, logCurve, j)
    {
      var entry: u16;
      if height == 1 {
        entry := 0;
      } else {
        var frac := Frac(height, y);
        match scale {
          case Linear => entry := ToUint16(LinearBin(binCount, frac));
          case Log => entry := ToUint16(LogBin(binCount, frac, logCurve));
        }
      }
      m[y] := entry;
    }
    assert m[..] == RowToBinMap(height, binCount, scale, logCurve);
  }

  /**
   * Every entry names an existing bin, in either mode and for every height,
   * as long as the bin count fits the `Uint16Array`: this is what keeps
   * `bins[rowToBin[y]]` in range.
   */
  lemma RowToBinInRange(height: nat, binCount: nat, scale: Scale, logCurve: (int, real) -> real)
    requires 1 <= binCount <= 0x1_0000
    ensures forall y :: 0 <= y < height ==> RowToBinMap(height, binCount, scale, logCurve)[y] as int < binCount
  {
  }

  /** In log mode, with at least two rows and two bins, bin 0 (DC) is never shown: every entry is in [1, binCount - 1]. */
  lemma LogRowToBinBounds(height: nat, binCount: nat, logCurve: (int, real) -> real)
    requires 2 <= height
    requires 2 <= binCount <= 0x1_0000
    ensures forall y :: 0 <= y < height ==> 1 <= RowToBinMap(height, binCount, Log, logCurve)[y] as int < binCount
  {
  }

  /** For a fraction in [0, 1], the linear bin is the rounded fraction of the top bin, already inside [0, binCount - 1]. */
  lemma LinearBinValue(binCount: int, frac: real)
    requires 1 <= binCount
    requires 0.0 <= frac <= 1.0
    ensures LinearBin(binCount, frac) == Round(frac * (binCount - 1) as real)
    ensures 0 <= LinearBin(binCount, frac) < binCount
  {
    var top := (binCount - 1) as real;
    ProductBelow(0.0, frac, top);
    ProductBelow(frac, 1.0, top);
    RoundMonotone(0.0, frac * top);
    RoundMonotone(frac * top, top);
    RoundOfInteger(0);
    RoundOfInteger(binCount - 1);
  }

  /** The linear bin never decreases as the fraction grows. */
  lemma LinearBinMonotone(binCount: int, f1: real, f2: real)
    requires 1 <= binCount
    requires 0.0 <= f1 <= f2 <= 1.0
    ensures LinearBin(binCount, f1) <= LinearBin(binCount, f2)
  {
    var top := (binCount - 1) as real;
    var p1, p2 := f1 * top, f2 * top;
    ProductBelow(f1, f2, top);
    RoundMonotone(p1, p2);
    LinearBinValue(binCount, f1);
    LinearBinValue(binCount, f2);
    assert LinearBin(binCount, f1) == Round(p1);
    assert LinearBin(binCount, f2) == Round(p2);
  }

  /** Rows lower on the canvas have smaller fractions. */
  lemma FracAntitone(height: nat, i: nat, j: nat)
    requires 2 <= height && i <= j < height
    ensures Frac(height, j) <= Frac(height, i)
  {
    QuotientBelow((height - 1 - j) as real, (height - 1 - i) as real, (height - 1) as real);
  }

  /**
   * Linear mode, at least two rows: the top row shows the highest bin, the
   * bottom row bin 0, and the bin never increases going down the canvas.
   */
  lemma LinearRowToBinShape(height: nat, binCount: nat, logCurve: (int, real) -> real)
    requires 2 <= height
    requires 1 <= binCount <= 0x1_0000
    ensures RowToBinMap(height, binCount, Linear, logCurve)[0] as int == binCount - 1
    ensures RowToBinMap(height, binCount, Linear, logCurve)[height - 1] == 0
    ensures forall i, j :: 0 <= i <= j < height ==>
      RowToBinMap(height, binCount, Linear, logCurve)[j] <= RowToBinMap(height, binCount, Linear, logCurve)[i]
  {
    var m := RowToBinMap(height, binCount, Linear, logCurve);
    LinearBinValue(binCount, 1.0);
    LinearBinValue(binCount, 0.0);
    RoundOfInteger(binCount - 1);
    RoundOfInteger(0);
    forall i, j | 0 <= i <= j < height
      ensures m[j] <= m[i]
    {
      FracAntitone(height, i, j);
      LinearBinValue(binCount, Frac(height, i));
      LinearBinValue(binCount, Frac(height, j));
      LinearBinMonotone(binCount, Frac(height, j), Frac(height, i));
    }
  }

  /**
   * Log mode with a curve that rises with the fraction: the bin never
   * increases going down the canvas either.
   */
  lemma LogRowToBinMonotone(height: nat, binCount: nat, logCurve: (int, real) -> real)
    requires 2 <= height
    requires 2 <= binCount <= 0x1_0000
    requires forall f1, f2 :: 0.0 <= f1 <= f2 <= 1.0 ==> logCurve(binCount, f1) <= logCurve(binCount, f2)
    ensures forall i, j :: 0 <= i <= j < height ==>
      RowToBinMap(height, binCount, Log, logCurve)[j] <= RowToBinMap(height, binCount, Log, logCurve)[i]
  {
    var m := RowToBinMap(height, binCount, Log, logCurve);
    forall i, j | 0 <= i <= j < height
      ensures m[j] <= m[i]
    {
      FracAntitone(height, i, j);
      RoundMonotone(logCurve(binCount, Frac(height, j)), logCurve(binCount, Frac(height, i)));
    }
  }

  /** Four rows over eight bins, linear: the rows show bins 7, 5, 2 and 0. */
  lemma LinearExample(logCurve: (int, real) -> real)
    ensures RowToBinMap(4, 8, Linear, logCurve) == [7, 5, 2, 0]
  {
    var m := RowToBinMap(4, 8, Linear, logCurve);
    assert Frac(4, 1) == 2.0 / 3.0;
    assert Frac(4, 2) == 1.0 / 3.0;
    assert Round(2.0 / 3.0 * 7.0) == 5;
    assert Round(1.0 / 3.0 * 7.0) == 2;
    assert m[0] == 7 && m[1] == 5 && m[2] == 2 && m[3] == 0;
  }

  /**
   * With a single row the 0/0 fraction makes the row store 0 in either mode;
   * this is why the log-mode bound above needs two rows.
   */
  lemma SingleRowStoresZero(binCount: nat, scale: Scale, logCurve: (int, real) -> real)
    ensures RowToBinMap(1, binCount, scale, logCurve) == [0]
  {
  }

  /** With no bins, linear mode stores -1, which the `Uint16Array` keeps as 65535. */
  lemma NoBinsWrapsAround(height: nat, logCurve: (int, real) -> real)
    requires 2 <= height
    ensures forall y :: 0 <= y < height ==> RowToBinMap(height, 0, Linear, logCurve)[y] == 0xFFFF
  {
  }
}
