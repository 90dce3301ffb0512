/**
 * The colour table of the spectrogram: a three-stop gradient from dark blue
 * through cyan to yellow, interpolated linearly per channel with each
 * channel truncated by `| 0`, and tabulated at the 256 points i/255.
 */
module Palette {
  import opened JsNumber
  import opened Arith

  datatype Option<T> = None | Some(value: T)

  /** An RGB colour as the script keeps it, a triple of integers. */
  datatype Rgb = Rgb(r: int, g: int, b: int)

  /** A gradient stop: a position `t` in [0, 1] and its colour. */
  datatype Stop = Stop(t: real, c: Rgb)

  /** Dark blue at 0, cyan at 0.5, yellow at 1. */
  const Stops: seq<Stop> := [
    Stop(0.0, Rgb(12, 7, 134)),
    Stop(0.5, Rgb(0, 255, 255)),
    Stop(1.0, Rgb(255, 255, 0))
  ]

  /** The stop positions strictly increase, so every segment has a positive length. */
  ghost predicate Increasing(stops: seq<Stop>) {
    forall i :: 0 <= i < |stops| - 1 ==> stops[i].t < stops[i + 1].t
  }

  /** Every channel of `c` lies between the matching channels of `lo` and `hi`. */
  predicate Within(c: Rgb, lo: Rgb, hi: Rgb) {
    && lo.r <= c.r <= hi.r
    && lo.g <= c.g <= hi.g
    && lo.b <= c.b <= hi.b
  }

  /** Every stop's colour lies within `lo` .. `hi`. */
  ghost predicate StopsWithin(stops: seq<Stop>, lo: Rgb, hi: Rgb) {
    forall i :: 0 <= i < |stops| ==> Within(stops[i].c, lo, hi)
  }

  /** The 8-bit colour range. */
  const Black: Rgb := Rgb(0, 0, 0)
  const White: Rgb := Rgb(255, 255, 255)

  /** `lerp(a, b, x)`: the point a fraction `x` of the way from `a` to `b`. */
  function Lerp(a: real, b: real, x: real): (v: real)
    ensures x == 0.0 ==> v == a
    ensures x == 1.0 ==> v == b
    ensures 0.0 <= x <= 1.0 && a <= b ==> a <= v <= b
    ensures 0.0 <= x <= 1.0 && b <= a ==> b <= v <= a
  {
    var d := b - a;
    ScaledBetween(d, x);
    a + d * x
  }

  /** A fraction in [0, 1] of `d` lies between 0 and `d`. */
  lemma ScaledBetween(d: real, x: real)
    ensures x == 0.0 ==> d * x == 0.0
    ensures x == 1.0 ==> d * x == d
    ensures 0.0 <= x <= 1.0 && d >= 0.0 ==> 0.0 <= d * x <= d
    ensures 0.0 <= x <= 1.0 && d <= 0.0 ==> d <= d * x <= 0.0
  {
    if 0.0 <= x <= 1.0 {
      if d >= 0.0 {
        ProductBelow(0.0, x, d);
        ProductBelow(x, 1.0, d);
      } else {
        ProductBelow(0.0, x, -d);
        ProductBelow(x, 1.0, -d);
        assert x * (-d) == -(d * x);
      }
    }
  }

  /** `lerp` followed by `| 0`, for one channel. */
  function LerpChannel(a: int, b: int, x: real): (n: int)
    requires 0 <= a < TwoTo31 && 0 <= b < TwoTo31
    requires 0.0 <= x <= 1.0
    ensures Min(a, b) <= n <= Max(a, b)
    ensures x == 0.0 ==> n == a
    ensures x == 1.0 ==> n == b
  {
    var v := Lerp(a as real, b as real, x);
    BitOrZero(v)
  }

  /** `lerp3(c1, c2, x)`: every channel interpolated and truncated. */
  function Lerp3(c1: Rgb, c2: Rgb, x: real): (c: Rgb)
    requires Within(c1, Black, White) && Within(c2, Black, White)
    requires 0.0 <= x <= 1.0
    ensures forall lo, hi :: Within(c1, lo, hi) && Within(c2, lo, hi) ==> Within(c, lo, hi)
    ensures x == 0.0 ==> c == c1
    ensures x == 1.0 ==> c == c2
  {
    Rgb(LerpChannel(c1.r, c2.r, x), LerpChannel(c1.g, c2.g, x), LerpChannel(c1.b, c2.b, x))
  }

  /** The fraction of the way `t` lies along the segment from `a` to `b`. */
  function SegmentFraction(a: real, b: real, t: real): (x: real)
    requires a < b && a <= t <= b
    ensures 0.0 <= x <= 1.0
    ensures t == a ==> x == 0.0
    ensures t == b ==> x == 1.0
  {
    var x := (t - a) / (b - a);
    QuotientBelow(0.0, t - a, b - a);
    QuotientBelow(t - a, b - a, b - a);
    x
  }

  /**
   * The segment search of `simpleMap`, from index `i` on: the first segment
   * `[stops[j].t, stops[j+1].t]` holding `t` gives the colour; when none does,
   * the loop falls through and the script returns `undefined` (None).
   */
  function Segment(stops: seq<Stop>, t: real, i: nat): (r: Option<Rgb>)
    requires Increasing(stops) && StopsWithin(stops, Black, White)
    ensures i + 1 < |stops| && stops[i].t <= t <= stops[|stops| - 1].t ==> r.Some?
    decreases |stops| - i
  {
    if i + 1 >= |stops| then None
    else
      var a, b := stops[i], stops[i + 1];
      if a.t <= t && t <= b.t then Some(Lerp3(a.c, b.c, SegmentFraction(a.t, b.t, t)))
      else Segment(stops, t, i + 1)
  }

  /** `simpleMap(t)`: below 0 the first stop, above 1 the last, otherwise the segment search. */
  function SimpleMap(t: real): (r: Option<Rgb>)
    ensures r.Some?
    ensures t <= 0.0 ==> r == Some(Stops[0].c)
    ensures t >= 1.0 ==> r == Some(Stops[|Stops| - 1].c)
  {
    assert Increasing(Stops) && StopsWithin(Stops, Black, White);
    if t <= 0.0 then Some(Stops[0].c)
    else if t >= 1.0 then Some(Stops[|Stops| - 1].c)
    else Segment(Stops, t, 0)
  }

  /** Entry `i` of the table: `simpleMap(i / 255)`. */
  function LutEntry(i: int): (c: Rgb)
    requires 0 <= i < 256
    ensures Within(c, Black, White)
  {
    SimpleMapWithin(i as real / 255.0, Black, White);
    SimpleMap(i as real / 255.0).value
  }

  /** `LUT`: the 256-entry colour table. */
  function Lut(): (table: seq<Rgb>)
    ensures |table| == 256
  {
    seq(256, i requires 0 <= i < 256 => LutEntry(i))
  }

  /**
   * A colour found by the segment search lies, channel by channel, within any
   * bounds that hold every stop.
   */
  lemma {:induction false} SegmentWithin(stops: seq<Stop>, t: real, i: nat, lo: Rgb, hi: Rgb)
    requires Increasing(stops) && StopsWithin(stops, Black, White)
    requires StopsWithin(stops, lo, hi)
    ensures Segment(stops, t, i).Some? ==> Within(Segment(stops, t, i).value, lo, hi)
    decreases |stops| - i
  {
    if i + 1 < |stops| {
      var a, b := stops[i], stops[i + 1];
      if !(a.t <= t && t <= b.t) {
        SegmentWithin(stops, t, i + 1, lo, hi);
      } else {
        assert Within(a.c, lo, hi) && Within(b.c, lo, hi);
      }
    }
  }

  /** Every colour `simpleMap` returns lies within any bounds that hold every stop. */
  lemma SimpleMapWithin(t: real, lo: Rgb, hi: Rgb)
    requires StopsWithin(Stops, lo, hi)
    ensures Within(SimpleMap(t).value, lo, hi)
  {
    assert Increasing(Stops) && StopsWithin(Stops, Black, White);
    SegmentWithin(Stops, t, 0, lo, hi);
  }

  /** Every channel of entry `i` is a byte, and its green channel never drops under the first stop's 7. */
  lemma LutEntryWithin(i: int)
    requires 0 <= i < 256
    ensures Within(Lut()[i], Black, White)
    ensures Lut()[i].g >= 7
  {
    SimpleMapWithin(i as real / 255.0, Black, White);
    SimpleMapWithin(i as real / 255.0, Rgb(0, 7, 0), White);
  }

  /**
   * The table has 256 entries, every channel of every entry is a byte, its ends
   * are the first and last stops, and no entry is black.
   */
  lemma LutFacts()
    ensures |Lut()| == 256
    ensures forall i :: 0 <= i < 256 ==> Within(Lut()[i], Black, White) && Lut()[i] != Black
    ensures Lut()[0] == Rgb(12, 7, 134)
    ensures Lut()[255] == Rgb(255, 255, 0)
  {
    forall i | 0 <= i < 256
      ensures Within(Lut()[i], Black, White) && Lut()[i] != Black
    {
      LutEntryWithin(i);
    }
  }

  /** Entry `i` of the table, with what every entry is known to satisfy. */
  function LutAt(i: int): (c: Rgb)
    requires 0 <= i < 256
    ensures Within(c, Black, White)
    ensures c.g >= 7
    ensures i == 0 ==> c == Rgb(12, 7, 134)
    ensures i == 255 ==> c == Rgb(255, 255, 0)
  {
    LutEntryWithin(i);
    Lut()[i]
  }

  /** An interior entry: i = 51 is t = 0.2, 0.4 of the way from dark blue to cyan. */
  lemma LutAt51()
    ensures Lut()[51] == Rgb(7, 106, 182)
  {
    assert 51.0 / 255.0 == 0.2;
    assert SegmentFraction(0.0, 0.5, 0.2) == 0.4;
  }
}
