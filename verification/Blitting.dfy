/**
 * Placing a fixture image on a canvas of the reference resolution, scaled to a region, in
 * 32-bit arithmetic that saturates. Canvas and image have four bytes per pixel.
 */
module Blitting {
  import opened Frames
  import opened Scaling

  const U32_MAX: nat := 0xFFFF_FFFF

  function SaturatingAdd(a: nat, b: nat): nat {
    Min(a + b, U32_MAX)
  }

  function SaturatingMul(a: nat, b: nat): nat {
    Min(a * b, U32_MAX)
  }

  datatype Image = Image(width: nat, height: nat, pixels: seq<Byte>)

  datatype Rectangle = Rectangle(x: nat, y: nat, width: nat, height: nat)

  predicate ValidImage(i: Image) {
    0 < i.width && 0 < i.height && i.width * i.height <= U32_MAX && |i.pixels| == 4 * (i.width * i.height)
  }

  predicate ValidCanvas(width: nat, height: nat) {
    width < U32_MAX && height < U32_MAX && width * height <= U32_MAX
  }

  predicate Placeable(r: Rectangle, width: nat, height: nat) {
    r.width != 0 && r.height != 0 && SaturatingAdd(r.x, r.width) <= width && SaturatingAdd(r.y, r.height) <= height
  }

  predicate InRectangle(r: Rectangle, x: nat, y: nat) {
    r.x <= x < r.x + r.width && r.y <= y < r.y + r.height
  }

  /** A region that is not empty and lies on the canvas. */
  predicate OnCanvas(r: Rectangle, width: nat, height: nat) {
    r.width > 0 && r.height > 0 && r.x + r.width <= width && r.y + r.height <= height
  }

  /** A region as its 32-bit fields can hold it. */
  predicate Fits32(r: Rectangle) {
    r.x <= U32_MAX && r.y <= U32_MAX && r.width <= U32_MAX && r.height <= U32_MAX
  }

  ghost predicate ChecksPlacement(width: nat, height: nat) {
    forall r :: Fits32(r) ==> (Placeable(r, width, height) <==> OnCanvas(r, width, height))
  }

  /** The saturating check admits exactly the regions on the canvas, if and only if neither
      side of the canvas is the largest 32-bit number; there it admits regions that reach
      off that side. */
  lemma {:induction false} PlaceableExactly(width: nat, height: nat)
    requires 0 < width <= U32_MAX && 0 < height <= U32_MAX
    ensures ChecksPlacement(width, height) <==> width < U32_MAX && height < U32_MAX
  {
    if width == U32_MAX {
      var r := Rectangle(1, 0, U32_MAX, 1);
      assert Fits32(r) && Placeable(r, width, height) && !OnCanvas(r, width, height);
    } else if height == U32_MAX {
      var r := Rectangle(0, 1, 1, U32_MAX);
      assert Fits32(r) && Placeable(r, width, height) && !OnCanvas(r, width, height);
    }
  }

  /** Where along one axis pixel `x` of a region of `to` comes from in an image of `from`. */
  function SourceAlong(x: nat, from: nat, to: nat): nat
    requires to > 0
  {
    SaturatingMul(x, from) / to
  }

  /** Saturation or not, the source position exists; without saturation it is the nearest. */
  lemma {:induction false} SourceIsInside(x: nat, from: nat, to: nat)
    requires x < to && from > 0
    ensures SourceAlong(x, from, to) < from
    ensures x * from <= U32_MAX ==> SourceAlong(x, from, to) == x * from / to
  {
    ScaledBelow(x, from, to);
    QuotientMonotone(SaturatingMul(x, from), x * from, to);
  }

  /** Every position of a region takes its nearest source position. */
  ghost predicate ScalesNearest(from: nat, to: nat)
    requires to > 0
  {
    forall x: nat :: x < to ==> SourceAlong(x, from, to) == x * from / to
  }

  /** A region is scaled by nearest neighbour if and only if its last position is: the product
      for that one is the largest, and where it saturates too early the far positions all
      repeat one source position. */
  lemma {:induction false} ScalesNearestExactly(from: nat, to: nat)
    requires from > 0 && to > 0
    ensures ScalesNearest(from, to) <==> (to - 1) * from / to <= U32_MAX / to
  {
    var last := (to - 1) * from;
    if last / to <= U32_MAX / to {
      forall x: nat | x < to ensures SourceAlong(x, from, to) == x * from / to {
        LessTimes(x, to - 1, from);
        QuotientMonotone(x * from, last, to);
        if x * from > U32_MAX { QuotientMonotone(U32_MAX, x * from, to); }
      }
    } else {
      assert SourceAlong(to - 1, from, to) <= U32_MAX / to by {
        QuotientMonotone(SaturatingMul(to - 1, from), U32_MAX, to);
      }
    }
  }

  /** The index of the pixel that `blit_scaled` reads, as it computes it. */
  function SourcePixel(i: Image, r: Rectangle, x: nat, y: nat): nat
    requires r.width > 0 && r.height > 0
  {
    SaturatingMul(SourceAlong(y, i.height, r.height), i.width) + SourceAlong(x, i.width, r.width)
  }

  function TargetPixel(r: Rectangle, width: nat, x: nat, y: nat): nat {
    SaturatingMul(r.y + y, width) + r.x + x
  }

  lemma {:induction false} IndexInside(x: nat, y: nat, width: nat, height: nat)
    requires x < width && y < height && width * height <= U32_MAX
    ensures SaturatingMul(y, width) == y * width && y * width + x < width * height
  {
    LessTimes(y + 1, height, width);
    assert (y + 1) * width == y * width + width;
    Swap(width, height);
  }

  lemma {:induction false} SourcePixelInside(i: Image, r: Rectangle, x: nat, y: nat)
    requires ValidImage(i) && x < r.width && y < r.height
    ensures SourcePixel(i, r, x, y) < i.width * i.height
  {
    SourceIsInside(x, i.width, r.width);
    SourceIsInside(y, i.height, r.height);
    IndexInside(SourceAlong(x, i.width, r.width), SourceAlong(y, i.height, r.height), i.width, i.height);
  }

  function PixelAt(bytes: seq<Byte>, q: nat): seq<Byte>
    requires 4 * q + 4 <= |bytes|
  {
    bytes[4 * q..4 * q + 4]
  }

  /** A pixel of the region at canvas index `q` that was written before reaching (x, y). */
  predicate Written(r: Rectangle, width: nat, q: nat, x: nat, y: nat)
    requires width > 0
  {
    && InRectangle(r, q % width, q / width)
    && (q / width - r.y < y || (q / width - r.y == y && q % width - r.x < x))
  }

  /** What canvas pixel `q` holds once (x, y) is reached. */
  function PlacedPixel(i: Image, before: seq<Byte>, r: Rectangle, width: nat, q: nat, x: nat, y: nat): seq<Byte>
    requires ValidImage(i) && width > 0 && 4 * q + 4 <= |before|
  {
    if Written(r, width, q, x, y) then
      SourcePixelInside(i, r, q % width - r.x, q / width - r.y);
      PixelAt(i.pixels, SourcePixel(i, r, q % width - r.x, q / width - r.y))
    else PixelAt(before, q)
  }

  ghost predicate Placed(i: Image, before: seq<Byte>, r: Rectangle, width: nat, canvas: seq<Byte>, x: nat, y: nat)
    requires ValidImage(i) && width > 0
  {
    && |canvas| == |before|
    && forall q :: 0 <= q && 4 * q + 4 <= |before|
         ==> PixelAt(canvas, q) == PlacedPixel(i, before, r, width, q, x, y)
  }

  lemma {:induction false} RowWritten(r: Rectangle, width: nat, q: nat, y: nat)
    requires width > 0
    ensures Written(r, width, q, r.width, y) <==> Written(r, width, q, 0, y + 1)
  {
  }

  lemma {:induction false} OneMoreWritten(r: Rectangle, width: nat, q: nat, x: nat, y: nat)
    requires width > 0 && x < r.width && y < r.height && r.x + r.width <= width
    ensures Written(r, width, q, x + 1, y)
       <==> Written(r, width, q, x, y) || q == (r.y + y) * width + (r.x + x)
    ensures q == (r.y + y) * width + (r.x + x) ==> q % width == r.x + x && q / width == r.y + y
  {
    RowAndColumn(q, width, r.x + x, r.y + y);
  }

  lemma {:induction false} Spliced(bytes: seq<Byte>, d: nat, pixel: seq<Byte>, q: nat)
    requires 4 * d + 4 <= |bytes| && 4 * q + 4 <= |bytes| && |pixel| == 4
    ensures var s := bytes[..4 * d] + pixel + bytes[4 * d + 4..];
      |s| == |bytes| && PixelAt(s, q) == if q == d then pixel else PixelAt(bytes, q)
  {
    var s := bytes[..4 * d] + pixel + bytes[4 * d + 4..];
    assert forall k :: 0 <= k < |s| ==> s[k] == if 4 * d <= k < 4 * d + 4 then pixel[k - 4 * d] else bytes[k];
  }

  lemma {:induction false} PlacedNext(
      i: Image, before: seq<Byte>, r: Rectangle, width: nat, q: nat, x: nat, y: nat, d: nat, pixel: seq<Byte>)
    requires ValidImage(i) && width > 0 && 4 * q + 4 <= |before|
    requires x < r.width && y < r.height && r.x + r.width <= width
    requires d == (r.y + y) * width + (r.x + x) && SourcePixel(i, r, x, y) < i.width * i.height
    requires pixel == PixelAt(i.pixels, SourcePixel(i, r, x, y))
    ensures PlacedPixel(i, before, r, width, q, x + 1, y)
         == if q == d then pixel else PlacedPixel(i, before, r, width, q, x, y)
  {
    OneMoreWritten(r, width, q, x, y);
  }

  /** Copying one more pixel takes the canvas from (x, y) to (x + 1, y). */
  lemma {:induction false} OneMorePlaced(
      i: Image, before: seq<Byte>, r: Rectangle, width: nat, canvas: seq<Byte>, next: seq<Byte>,
      x: nat, y: nat, d: nat, pixel: seq<Byte>)
    requires ValidImage(i) && width > 0 && Placed(i, before, r, width, canvas, x, y)
    requires x < r.width && y < r.height && r.x + r.width <= width
    requires d == (r.y + y) * width + (r.x + x) && SourcePixel(i, r, x, y) < i.width * i.height
    requires pixel == PixelAt(i.pixels, SourcePixel(i, r, x, y))
    requires 4 * d + 4 <= |before| && next == canvas[..4 * d] + pixel + canvas[4 * d + 4..]
    ensures Placed(i, before, r, width, next, x + 1, y)
  {
    forall q: nat | 4 * q + 4 <= |before|
      ensures PixelAt(next, q) == PlacedPixel(i, before, r, width, q, x + 1, y)
    {
      Spliced(canvas, d, pixel, q);
      PlacedNext(i, before, r, width, q, x, y, d, pixel);
      assert PixelAt(canvas, q) == PlacedPixel(i, before, r, width, q, x, y);
    }
  }

  /** `copy_from_slice` of four bytes. */
  method CopyPixel(canvas: array<Byte>, d: nat, pixel: seq<Byte>)
    requires 4 * d + 4 <= canvas.Length && |pixel| == 4
    modifies canvas
    ensures canvas[..] == old(canvas[..4 * d]) + pixel + old(canvas[4 * d + 4..])
  {
    for k := 0 to 4
      invariant forall j :: 0 <= j < canvas.Length ==>
        canvas[j] == if 4 * d <= j < 4 * d + k then pixel[j - 4 * d] else old(canvas[j])
    {
      canvas[4 * d + k] := pixel[k];
    }
  }

  /** Writes exactly the pixels of the region, each from its source pixel, or nothing at all
      when the region is empty or reaches off the canvas. */
  method BlitScaled(i: Image, canvas: array<Byte>, width: nat, height: nat, r: Rectangle) returns (ok: bool)
    requires ValidImage(i) && ValidCanvas(width, height) && canvas.Length == 4 * (width * height)
    modifies canvas
    ensures ok <==> Placeable(r, width, height)
    ensures !ok ==> canvas[..] == old(canvas[..])
    ensures ok ==> width > 0 && Placed(i, old(canvas[..]), r, width, canvas[..], 0, r.height)
  {
    if !Placeable(r, width, height) { return false; }
    ghost var before := canvas[..];
    assert Placed(i, before, r, width, before, 0, 0);
    for y := 0 to r.height
      invariant Placed(i, before, r, width, canvas[..], 0, y)
    {
      for x := 0 to r.width
        invariant Placed(i, before, r, width, canvas[..], x, y)
      {
        SourcePixelInside(i, r, x, y);
        IndexInside(r.x + x, r.y + y, width, height);
        var source, target := SourcePixel(i, r, x, y), TargetPixel(r, width, x, y);
        ghost var was := canvas[..];
        CopyPixel(canvas, target, PixelAt(i.pixels, source));
        OneMorePlaced(i, before, r, width, was, canvas[..], x, y, target, PixelAt(i.pixels, source));
      }
      NextRow(i, before, r, width, canvas[..], y);
    }
    return true;
  }

  lemma {:induction false} NextRow(i: Image, before: seq<Byte>, r: Rectangle, width: nat, canvas: seq<Byte>, y: nat)
    requires ValidImage(i) && width > 0 && Placed(i, before, r, width, canvas, r.width, y)
    ensures Placed(i, before, r, width, canvas, 0, y + 1)
  {
    forall q | 0 <= q && 4 * q + 4 <= |before|
      ensures PixelAt(canvas, q) == PlacedPixel(i, before, r, width, q, 0, y + 1)
    {
      RowWritten(r, width, q, y);
      assert PixelAt(canvas, q) == PlacedPixel(i, before, r, width, q, r.width, y);
    }
  }

  /** What is written in the end is the region, no more and no less. */
  lemma {:induction false} WrittenIsRegion(r: Rectangle, width: nat, q: nat)
    requires width > 0
    ensures Written(r, width, q, 0, r.height) <==> InRectangle(r, q % width, q / width)
  {
  }

  /** The pixel of an image at a position, row by row. */
  function ImageAt(i: Image, x: nat, y: nat): seq<Byte>
    requires ValidImage(i) && x < i.width && y < i.height
  {
    IndexInside(x, y, i.width, i.height);
    PixelAt(i.pixels, y * i.width + x)
  }

  /** The position that `x` of `to` stands for among `from`, rounded down. */
  function Nearest(x: nat, from: nat, to: nat): nat
    requires to > 0
  {
    x * from / to
  }

  lemma {:induction false} NearestIsInside(x: nat, from: nat, to: nat)
    requires x < to && from > 0 && ScalesNearest(from, to)
    ensures Nearest(x, from, to) < from && SourceAlong(x, from, to) == Nearest(x, from, to)
  {
    SourceIsInside(x, from, to);
  }

  /** What canvas pixel `q`, at (x, y), shows after the image has been placed in the region. */
  ghost predicate ShowsAt(i: Image, before: seq<Byte>, r: Rectangle, canvas: seq<Byte>, q: nat, x: nat, y: nat)
    requires ValidImage(i) && r.width > 0 && r.height > 0 && 4 * q + 4 <= |before| == |canvas|
  {
    if InRectangle(r, x, y) then
      var (u, v) := (Nearest(x - r.x, i.width, r.width), Nearest(y - r.y, i.height, r.height));
      u < i.width && v < i.height && PixelAt(canvas, q) == ImageAt(i, u, v)
    else PixelAt(canvas, q) == PixelAt(before, q)
  }

  lemma {:induction false} SourceIsImageAt(i: Image, r: Rectangle, x: nat, y: nat, u: nat, v: nat)
    requires ValidImage(i) && r.width > 0 && r.height > 0 && u < i.width && v < i.height
    requires u == SourceAlong(x, i.width, r.width) && v == SourceAlong(y, i.height, r.height)
    ensures SourcePixel(i, r, x, y) == v * i.width + u < i.width * i.height
  {
    IndexInside(u, v, i.width, i.height);
  }

  /** A placed image shows inside the region its nearest pixel at every position, and leaves
      the canvas outside as it was. */
  lemma {:induction false} PlacedIsNearest(
      i: Image, before: seq<Byte>, r: Rectangle, width: nat, canvas: seq<Byte>, q: nat, x: nat, y: nat)
    requires ValidImage(i) && r.width > 0 && r.height > 0
    requires q == y * width + x && x < width && 4 * q + 4 <= |before|
    requires ScalesNearest(i.width, r.width) && ScalesNearest(i.height, r.height)
    requires Placed(i, before, r, width, canvas, 0, r.height)
    ensures |canvas| == |before| && ShowsAt(i, before, r, canvas, q, x, y)
  {
    RowAndColumn(q, width, x, y);
    WrittenIsRegion(r, width, q);
    assert PixelAt(canvas, q) == PlacedPixel(i, before, r, width, q, 0, r.height);
    if InRectangle(r, x, y) {
      NearestIsInside(x - r.x, i.width, r.width);
      NearestIsInside(y - r.y, i.height, r.height);
      SourceIsImageAt(i, r, x - r.x, y - r.y, Nearest(x - r.x, i.width, r.width), Nearest(y - r.y, i.height, r.height));
    }
  }
}
