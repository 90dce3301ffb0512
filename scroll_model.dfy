/**
 * The canvas as a value, and what the two operations that move its content
 * do to it: the per-frame scroll (the content shifts left by one column and
 * the new column is written at the right edge) and the restore after a
 * resize (the old content is copied back anchored to the right edge).
 *
 * An image is a sequence of columns, `img[x][y]` the pixel at column x,
 * row y; all columns have the canvas height.
 */
module ScrollModel {
  import opened JsNumber
  import opened Render
  import opened Arith

  type Image = seq<seq<Rgba>>

  /** Every column of `img` has `h` rows. */
  ghost predicate HasHeight(img: Image, h: nat) {
    forall x :: 0 <= x < |img| ==> |img[x]| == h
  }

  /**
   * One frame: columns 1 .. W-1 move to 0 .. W-2 and `col` becomes column
   * W-1. (An empty image is returned unchanged; the script never gets that
   * far on an empty canvas, whose self-`drawImage` throws.)
   */
  function ScrollIn(img: Image, col: seq<Rgba>): (r: Image)
    ensures |r| == |img|
    ensures forall x :: 0 <= x < |img| - 1 ==> r[x] == img[x + 1]
    ensures |img| > 0 ==> r[|img| - 1] == col
  {
    if |img| == 0 then img else img[1..] + [col]
  }

  /** The canvas after one frame per element of `frames`, oldest first. */
  function Ticks(img: Image, frames: seq<seq<Rgba>>): (r: Image)
    ensures |r| == |img|
  {
    if |frames| == 0 then img
    else ScrollIn(Ticks(img, frames[..|frames| - 1]), frames[|frames| - 1])
  }

  /**
   * The history the scroll keeps: after N frames on a canvas W columns wide,
   * the last min(N, W) columns show the last frames, the newest at the right
   * edge (column W-1-k shows the frame drawn k frames ago), and, when N < W,
   * the columns left of those show the previous content shifted N columns to
   * the left.
   */
  lemma {:induction false} TicksHistory(img: Image, frames: seq<seq<Rgba>>)
    ensures forall x :: 0 <= x < |img| && |img| - |frames| <= x ==>
      Ticks(img, frames)[x] == frames[|frames| - |img| + x]
    ensures forall x :: 0 <= x < |img| - |frames| ==> Ticks(img, frames)[x] == img[x + |frames|]
  {
    if |frames| > 0 {
      var prev := frames[..|frames| - 1];
      TicksHistory(img, prev);
      var before := Ticks(img, prev);
      var after := Ticks(img, frames);
      assert after == ScrollIn(before, frames[|frames| - 1]);
      forall x | 0 <= x < |img| && |img| - |frames| <= x
        ensures after[x] == frames[|frames| - |img| + x]
      {
        if x < |img| - 1 {
          assert after[x] == before[x + 1];
          assert before[x + 1] == prev[|prev| - |img| + x + 1];
        }
      }
    }
  }

  /** Scrolling keeps the height of every column when the new column has it too. */
  lemma {:induction false} TicksKeepHeight(img: Image, frames: seq<seq<Rgba>>, h: nat)
    requires HasHeight(img, h)
    requires forall i :: 0 <= i < |frames| ==> |frames[i]| == h
    ensures HasHeight(Ticks(img, frames), h)
  {
    if |frames| > 0 {
      TicksKeepHeight(img, frames[..|frames| - 1], h);
    }
  }

  /**
   * The two rectangles of the restore's `drawImage`: source columns
   * [sx, sx + sw) of the snapshot go to destination columns [dx, dx + dw).
   */
  datatype Blit = Blit(sx: int, sw: int, dx: int, dw: int)

  /**
   * The restore geometry for a resize from `oldW` to `newW` columns. Growing,
   * the whole snapshot is drawn `dx = newW - oldW` columns in; shrinking, the
   * `sx = -dx` oldest columns are cut off and the rest drawn from column 0.
   */
  function RestoreBlit(oldW: nat, newW: nat): (b: Blit)
    ensures b.sw == b.dw == Min(oldW, newW)
    ensures b.sx >= 0 && b.dx >= 0
    ensures b.sx + b.sw == oldW
    ensures b.dx + b.dw == newW
    ensures newW >= oldW ==> b.sx == 0
    ensures newW <= oldW ==> b.dx == 0
  {
    var dx := newW - oldW;
    if dx >= 0 then Blit(0, oldW, dx, oldW)
    else
      var sx := -dx;
      var srcW := oldW - sx;
      var dstW := Min(srcW, newW);
      Blit(sx, srcW, 0, dstW)
  }

  /**
   * The snapshot row that destination row `y` samples when `oldH` rows are
   * stretched onto `newH` without smoothing: the row under the centre of `y`.
   */
  function SourceRow(y: nat, oldH: nat, newH: nat): (r: nat)
    requires y < newH && 0 < oldH
    ensures r < oldH
    ensures oldH == newH ==> r == y
  {
    CentreRow(y, oldH, newH);
    ((2 * y + 1) * oldH) / (2 * newH)
  }

  /** Proof helper for `CentreRow`: `(m + 1) * c` distributes. */
  lemma Distrib(m: int, c: int)
    ensures (m + 1) * c == m * c + c
  {
  }
  /** The row under the centre of destination row `y` exists in the snapshot, and is row `y` when nothing is stretched. */
  lemma CentreRow(y: nat, oldH: nat, newH: nat)
    requires y < newH && 0 < oldH
    ensures 0 <= ((2 * y + 1) * oldH) / (2 * newH) < oldH
    ensures oldH == newH ==> ((2 * y + 1) * oldH) / (2 * newH) == y
  {
    var m := 2 * y + 1;
    var d := 2 * newH;
    var a := m * oldH;
    MulMonotone(0, m, oldH);
    MulMonotone(m + 1, d, oldH);
    Distrib(m, oldH);
    assert a < d * oldH;
    assert d * oldH == oldH * d;
    DivBelow(a, d, oldH);
    DivNonNegative(a, d);
    if oldH == newH {
      Distrib(2 * y, oldH);
      assert (2 * y) * oldH == y * d;
      DivIsQuotient(a, d, y, oldH);
    }
  }

  /** The canvas right after a resize to `newW` x `newH`: opaque black, with the snapshot restored when there is one. */
  function Restored(img: Image, oldH: nat, newW: nat, newH: nat): (r: Image)
    requires HasHeight(img, oldH)
    ensures |r| == newW && HasHeight(r, newH)
  {
    var b := RestoreBlit(|img|, newW);
    seq(newW, x requires 0 <= x < newW =>
      seq(newH, y requires 0 <= y < newH =>
        if |img| != 0 && oldH != 0 && b.dx <= x < b.dx + b.dw
        then img[x - b.dx + b.sx][SourceRow(y, oldH, newH)]
        else OpaqueBlack))
  }

  /**
   * The restore is anchored to the right edge: for equal heights, column
   * newW-1-k after the resize is column oldW-1-k before it, for every
   * k < min(oldW, newW) (here x = newW-1-k).
   */
  lemma RestoreRightAnchored(img: Image, h: nat, newW: nat)
    requires HasHeight(img, h)
    ensures forall x :: 0 <= x < newW && newW - |img| <= x ==>
      Restored(img, h, newW, h)[x] == img[|img| - newW + x]
  {
    var r := Restored(img, h, newW, h);
    forall x | 0 <= x < newW && newW - |img| <= x
      ensures r[x] == img[|img| - newW + x]
    {
      var col := r[x];
      if h != 0 {
        forall y | 0 <= y < h
          ensures col[y] == img[|img| - newW + x][y]
        {
          assert SourceRow(y, h, h) == y;
        }
      }
    }
  }

  /** Growing the canvas leaves the new columns on the left opaque black, for the next frames to fill. */
  lemma RestoreGrowLeavesLeftBlack(img: Image, oldH: nat, newW: nat, newH: nat)
    requires HasHeight(img, oldH)
    requires newW > |img|
    ensures forall x, y :: 0 <= x < newW - |img| && 0 <= y < newH ==>
      Restored(img, oldH, newW, newH)[x][y] == OpaqueBlack
  {
  }

  /** With no old content (zero width or zero height) nothing is restored: the new canvas is all black. */
  lemma NoSnapshotAllBlack(img: Image, oldH: nat, newW: nat, newH: nat)
    requires HasHeight(img, oldH)
    requires |img| == 0 || oldH == 0
    ensures forall x, y :: 0 <= x < newW && 0 <= y < newH ==>
      Restored(img, oldH, newW, newH)[x][y] == OpaqueBlack
  {
  }

  /** Resizing to the same width and height gives back exactly the same pixels. */
  lemma RestoreSameSizeIdentity(img: Image, h: nat)
    requires HasHeight(img, h)
    ensures Restored(img, h, |img|, h) == img
  {
    var r := Restored(img, h, |img|, h);
    RestoreRightAnchored(img, h, |img|);
  }
}
