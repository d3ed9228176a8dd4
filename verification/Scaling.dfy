/**
 * Resizing by nearest neighbour: previews of frames and of grey images, fixtures placed on
 * a canvas, and regions given as fractions of a frame.
 */
module Scaling {
  import opened Prelude
  import opened Frames

  // ------------------------------------------------------------- preview sizes

  datatype Size = Size(width: nat, height: nat)

  /** `downscale_frame`: unchanged if it fits, else limited by the axis that overshoots more. */
  function PreviewSize(s: Size, most: Size): Size
    requires s.width > 0 && s.height > 0
  {
    if s.width <= most.width && s.height <= most.height then s
    else if s.width * most.height >= s.height * most.width then
      Size(most.width, Max(s.height * most.width / s.width, 1))
    else Size(Max(s.width * most.height / s.height, 1), most.height)
  }

  lemma {:induction false} LimitedSide(length: nat, other: nat, most: nat, otherMost: nat)
    requires length > 0 && other > 0 && most > 0 && otherMost > 0
    requires length * otherMost >= other * most && !(length <= most && other <= otherMost)
    ensures most < length
    ensures var scaled := other * most / length; scaled <= otherMost && scaled <= other
    ensures var scaled := other * most / length; scaled * length <= other * most < (scaled + 1) * length
  {
    assert (otherMost + 1) * most == otherMost * most + most;
    if length <= most {
      LessTimes(length, most, otherMost);
      LessTimes(otherMost + 1, other, most);
    }
    QuotientBounds(other * most, length);
    Swap(other, most);
    assert (otherMost + 1) * length == otherMost * length + length;
    Swap(length, otherMost);
    QuotientBelow(other * most, length, otherMost + 1);
    LessTimes(most, length, other);
    Swap(length, other);
    assert (other + 1) * length == other * length + length;
    QuotientBelow(other * most, length, other + 1);
  }

  lemma {:induction false} Swap(a: nat, b: nat)
    ensures a * b == b * a
  {
  }

  /** A preview is never empty, within both limits and never larger than the frame; unless
      the frame fitted, it touches a limit and keeps the aspect ratio to within the last
      pixel of the other side (or that side is the one pixel it must have). */
  lemma {:induction false} PreviewFits(s: Size, most: Size)
    requires s.width > 0 && s.height > 0 && most.width > 0 && most.height > 0
    ensures var p := PreviewSize(s, most);
      && 0 < p.width <= most.width && 0 < p.height <= most.height && p.width <= s.width && p.height <= s.height
      && (p == s || (p.width == most.width && SameRatio(p.height, p.width, s.height, s.width))
                 || (p.height == most.height && SameRatio(p.width, p.height, s.width, s.height)))
  {
    if !(s.width <= most.width && s.height <= most.height) {
      if s.width * most.height >= s.height * most.width {
        LimitedSide(s.width, s.height, most.width, most.height);
      } else {
        LimitedSide(s.height, s.width, most.height, most.width);
      }
    }
  }

  /** `side` is the largest whole number with side / base <= full / fullBase, but at least one. */
  predicate SameRatio(side: nat, base: nat, full: nat, fullBase: nat) {
    (side * fullBase <= full * base || side == 1) && full * base < (side + 1) * fullBase
  }

  // ------------------------------------------------------------- frame previews

  predicate Shrinks(f: Frame, to: Size) {
    ValidFrame(f) && 0 < to.width && 0 < to.height
  }

  /** The source of pixel (x, y), of which the preview copies all bytes. */
  function SourceOffset(f: Frame, to: Size, x: nat, y: nat): (at: nat)
    requires Shrinks(f, to) && x < to.width && y < to.height
    ensures at + f.pixel <= |f.data|
  {
    ScaledBelow(x, f.width, to.width);
    ScaledBelow(y, f.height, to.height);
    PixelInBounds(f, x * f.width / to.width, y * f.height / to.height);
    Offset(f, x * f.width / to.width, y * f.height / to.height)
  }

  function PreviewRow(f: Frame, to: Size, y: nat, n: nat): (row: seq<Byte>)
    requires Shrinks(f, to) && n <= to.width && y < to.height
    ensures |row| == n * f.pixel
  {
    if n == 0 then []
    else
      var at := SourceOffset(f, to, n - 1, y);
      assert n * f.pixel == (n - 1) * f.pixel + f.pixel;
      PreviewRow(f, to, y, n - 1) + f.data[at..at + f.pixel]
  }

  function PreviewRows(f: Frame, to: Size, n: nat): (rows: seq<Byte>)
    requires Shrinks(f, to) && n <= to.height
    ensures |rows| == n * (to.width * f.pixel)
  {
    if n == 0 then []
    else
      assert n * (to.width * f.pixel) == (n - 1) * (to.width * f.pixel) + to.width * f.pixel;
      PreviewRows(f, to, n - 1) + PreviewRow(f, to, n - 1, to.width)
  }

  function Preview(f: Frame, to: Size): Frame
    requires Shrinks(f, to)
  {
    Frame(to.width, to.height, to.width * f.pixel, f.pixel, PreviewRows(f, to, to.height))
  }

  lemma {:induction false} RowPixel(f: Frame, to: Size, x: nat, y: nat, n: nat, k: nat)
    requires Shrinks(f, to) && x < n <= to.width && y < to.height && k < f.pixel
    ensures x * f.pixel + k < n * f.pixel
    ensures PreviewRow(f, to, y, n)[x * f.pixel + k] == f.data[SourceOffset(f, to, x, y) + k]
  {
    assert n * f.pixel == (n - 1) * f.pixel + f.pixel;
    if x < n - 1 { RowPixel(f, to, x, y, n - 1, k); }
  }

  lemma {:induction false} RowsByte(f: Frame, to: Size, y: nat, n: nat, b: nat)
    requires Shrinks(f, to) && y < n <= to.height && b < to.width * f.pixel
    ensures y * (to.width * f.pixel) + b < n * (to.width * f.pixel)
    ensures PreviewRows(f, to, n)[y * (to.width * f.pixel) + b] == PreviewRow(f, to, y, to.width)[b]
  {
    assert n * (to.width * f.pixel) == (n - 1) * (to.width * f.pixel) + to.width * f.pixel;
    if y < n - 1 { RowsByte(f, to, y, n - 1, b); }
  }

  /** Every pixel of a preview is its nearest source pixel, and the preview is a frame. */
  lemma {:induction false} PreviewIsNearest(f: Frame, to: Size, x: nat, y: nat, k: nat)
    requires Shrinks(f, to) && x < to.width && y < to.height && k < f.pixel
    ensures ValidFrame(Preview(f, to))
    ensures var p := Preview(f, to);
      && Offset(p, x, y) + k < |p.data|
      && p.data[Offset(p, x, y) + k] == f.data[SourceOffset(f, to, x, y) + k]
  {
    RowPixel(f, to, x, y, to.width, k);
    RowsByte(f, to, y, to.height, x * f.pixel + k);
    Swap(to.width * f.pixel, to.height);
  }

  /** A frame that fits keeps every pixel where it is; only row padding goes. */
  lemma {:induction false} FittingPreviewIsCopy(f: Frame, x: nat, y: nat)
    requires ValidFrame(f) && x < f.width && y < f.height
    ensures SourceOffset(f, Size(f.width, f.height), x, y) == Offset(f, x, y)
  {
    Cancels(x, f.width);
    Cancels(y, f.height);
  }

  lemma {:induction false} Cancels(x: nat, d: nat)
    requires d > 0
    ensures x * d / d == x
  {
    QuotientBelow(x * d, d, x);
    assert (x + 1) * d == x * d + d;
    QuotientBelow(x * d, d, x + 1);
  }

  method DownscaleFrame(f: Frame, most: Size) returns (p: Frame)
    requires ValidFrame(f) && most.width > 0 && most.height > 0
    ensures p == Preview(f, PreviewSize(Size(f.width, f.height), most))
  {
    var to := PreviewSize(Size(f.width, f.height), most);
    PreviewFits(Size(f.width, f.height), most);
    var pixels: seq<Byte> := [];
    for y := 0 to to.height
      invariant pixels == PreviewRows(f, to, y)
    {
      var row: seq<Byte> := [];
      for x := 0 to to.width
        invariant row == PreviewRow(f, to, y, x)
      {
        var at := SourceOffset(f, to, x, y);
        row := row + f.data[at..at + f.pixel];
      }
      pixels := pixels + row;
    }
    p := Frame(to.width, to.height, to.width * f.pixel, f.pixel, pixels);
  }

  // ------------------------------------------------------------- grey previews

  datatype Gray = Gray(width: nat, height: nat, pixels: seq<Byte>)

  predicate ValidGray(g: Gray) {
    g.width > 0 && g.height > 0 && |g.pixels| == g.width * g.height
  }

  function CeilDiv(a: nat, d: nat): nat
    requires d > 0
  {
    (a + d - 1) / d
  }

  lemma {:induction false} CeilDivAtMost(a: nat, d: nat, b: nat)
    requires d > 0
    ensures CeilDiv(a, d) <= b <==> a <= b * d
  {
    QuotientBelow(a + d - 1, d, b + 1);
    assert (b + 1) * d == b * d + d;
  }

  function GrayScale(g: Gray, most: nat): nat
    requires most > 0
  {
    Max(CeilDiv(g.width, most), CeilDiv(g.height, most))
  }

  predicate FitsAt(g: Gray, scale: nat, most: nat)
    requires scale > 0
  {
    CeilDiv(g.width, scale) <= most && CeilDiv(g.height, scale) <= most
  }

  /** The chosen scale is the least at which the image fits. */
  lemma {:induction false} ScaleIsLeast(g: Gray, most: nat, scale: nat)
    requires ValidGray(g) && most > 0 && scale > 0
    ensures GrayScale(g, most) > 0
    ensures FitsAt(g, scale, most) <==> scale >= GrayScale(g, most)
  {
    CeilDivAtMost(g.width, most, 0);
    CeilDivAtMost(g.width, most, scale);
    CeilDivAtMost(g.height, most, scale);
    CeilDivAtMost(g.width, scale, most);
    CeilDivAtMost(g.height, scale, most);
    Swap(most, scale);
  }

  /** Stepping by `scale` stays inside, so the clamp to the last pixel never acts. */
  lemma {:induction false} StepInside(x: nat, size: nat, scale: nat)
    requires scale > 0 && x < CeilDiv(size, scale)
    ensures x * scale < size
  {
    CeilDivAtMost(size, scale, x);
  }

  function GrayAt(g: Gray, scale: nat, x: nat, y: nat): Byte
    requires ValidGray(g)
  {
    var sourceX := if x * scale < g.width - 1 then x * scale else g.width - 1;
    var sourceY := if y * scale < g.height - 1 then y * scale else g.height - 1;
    GrayIndex(g, sourceX, sourceY);
    g.pixels[sourceY * g.width + sourceX]
  }

  lemma {:induction false} GrayIndex(g: Gray, x: nat, y: nat)
    requires ValidGray(g) && x < g.width && y < g.height
    ensures y * g.width + x < |g.pixels|
  {
    LessTimes(y + 1, g.height, g.width);
    assert (y + 1) * g.width == y * g.width + g.width;
    Swap(g.width, g.height);
  }

  /** Every `scale`-th pixel of every `scale`-th row. */
  function Sampled(g: Gray, scale: nat): Gray
    requires ValidGray(g) && scale > 0
  {
    CeilDivAtMost(g.width, scale, 0);
    Raster(CeilDiv(g.width, scale), CeilDiv(g.height, scale), (x, y) => GrayAt(g, scale, x, y))
  }

  function Column(i: nat, width: nat): nat
    requires width > 0
  {
    i % width
  }

  function Row(i: nat, width: nat): nat
    requires width > 0
  {
    i / width
  }

  function RasterAt(f: (nat, nat) -> Byte, width: nat, i: nat): Byte
    requires width > 0
  {
    f(Column(i, width), Row(i, width))
  }

  /** An image filled row after row. */
  function Raster(width: nat, height: nat, f: (nat, nat) -> Byte): Gray
    requires width > 0
  {
    Gray(width, height, seq(width * height, i requires 0 <= i => RasterAt(f, width, i)))
  }

  lemma {:induction false} RasterPixel(width: nat, height: nat, f: (nat, nat) -> Byte, x: nat, y: nat)
    requires x < width && y < height
    ensures ValidGray(Raster(width, height, f)) && GrayPixel(Raster(width, height, f), x, y) == f(x, y)
  {
    GrayIndex(Raster(width, height, f), x, y);
    RowAndColumn(y * width + x, width, x, y);
  }

  /** `bounded_gray_preview`. */
  function GrayPreview(g: Gray, most: nat): Gray
    requires ValidGray(g) && most > 0
  {
    if g.width <= most && g.height <= most then g
    else
      ScaleIsLeast(g, most, 1);
      Sampled(g, GrayScale(g, most))
  }

  predicate SamplesAt(p: Gray, g: Gray, scale: nat, x: nat, y: nat)
    requires ValidGray(p) && ValidGray(g) && x < p.width && y < p.height
  {
    && x * scale < g.width && y * scale < g.height
    && GrayPixel(p, x, y) == GrayPixel(g, x * scale, y * scale)
  }

  function GrayPixel(g: Gray, x: nat, y: nat): Byte
    requires ValidGray(g) && x < g.width && y < g.height
  {
    GrayIndex(g, x, y);
    g.pixels[y * g.width + x]
  }

  lemma {:induction false} SampledIsValid(g: Gray, scale: nat)
    requires ValidGray(g) && scale > 0
    ensures ValidGray(Sampled(g, scale))
  {
    CeilDivAtMost(g.width, scale, 0);
    CeilDivAtMost(g.height, scale, 0);
  }

  lemma {:induction false} SampledPixel(g: Gray, scale: nat, x: nat, y: nat)
    requires ValidGray(g) && scale > 0 && ValidGray(Sampled(g, scale))
    requires x < Sampled(g, scale).width && y < Sampled(g, scale).height
    ensures SamplesAt(Sampled(g, scale), g, scale, x, y)
  {
    StepInside(x, g.width, scale);
    StepInside(y, g.height, scale);
    GrayAtStep(g, scale, x, y);
    RasterPixel(CeilDiv(g.width, scale), CeilDiv(g.height, scale), (x, y) => GrayAt(g, scale, x, y), x, y);
  }

  lemma {:induction false} GrayAtStep(g: Gray, scale: nat, x: nat, y: nat)
    requires ValidGray(g) && x * scale < g.width && y * scale < g.height
    ensures GrayAt(g, scale, x, y) == GrayPixel(g, x * scale, y * scale)
  {
  }

  /** A grey preview is a valid image within the limit; it is the image itself if that fits,
      and otherwise takes each pixel from `scale` times its position, which always exists. */
  lemma {:induction false} GrayPreviewIsSampled(g: Gray, most: nat)
    requires ValidGray(g) && most > 0
    ensures var p := GrayPreview(g, most);
      && ValidGray(p) && p.width <= most && p.height <= most
      && (g.width <= most && g.height <= most ==> p == g)
      && (!(g.width <= most && g.height <= most) ==>
           forall x: nat, y: nat :: x < p.width && y < p.height ==> SamplesAt(p, g, GrayScale(g, most), x, y))
  {
    if !(g.width <= most && g.height <= most) {
      var scale := GrayScale(g, most);
      ScaleIsLeast(g, most, 1);
      ScaleIsLeast(g, most, scale);
      SampledIsValid(g, scale);
      var p := Sampled(g, scale);
      forall x: nat, y: nat | x < p.width && y < p.height ensures SamplesAt(p, g, scale, x, y) {
        SampledPixel(g, scale, x, y);
      }
    }
  }

  lemma {:induction false} RowAndColumn(i: nat, width: nat, x: nat, y: nat)
    requires width > 0
    ensures i == y * width + x && x < width <==> i / width == y && i % width == x
  {
    assert i == (i / width) * width + i % width;
    if i == y * width + x && x < width {
      assert (y + 1) * width == y * width + width;
      QuotientBelow(i, width, y);
      QuotientBelow(i, width, y + 1);
    }
  }

  // ------------------------------------------------------------- regions

  datatype Span = Span(first: int, last: int)

  function Ceiling(v: real): int {
    -((-v).Floor)
  }

  function Min(a: int, b: int): int {
    if a < b then a else b
  }

  /** One axis of `normalized_to_pixels`, without rounding: nothing if the frame has no extent,
      the fraction is not inside [0, 1] or no pixel remains. */
  function ToPixels(at: real, length: real, size: nat): Option<Span> {
    if size == 0 || at < 0.0 || length <= 0.0 || at + length > 1.0 then None
    else
      var s := SpanOf(at * size as real, (at + length) * size as real, size);
      if s.last <= s.first then None else Some(s)
  }

  /** The floor of the start and the ceiling of the end, kept inside the frame. */
  function SpanOf(low: real, high: real, size: nat): Span {
    Span(Max(low.Floor, 0), Min(Ceiling(high), size))
  }

  /** The pixels from `first` to before `last` cover [low, high], inside the frame and with
      nothing to spare at either end. */
  predicate Covers(s: Span, size: nat, low: real, high: real) {
    && 0 <= s.first < s.last <= size
    && s.first as real <= low < (s.first + 1) as real
    && (s.last - 1) as real < high <= s.last as real
  }

  lemma {:induction false} SpanCovers(low: real, high: real, size: nat)
    requires 0.0 <= low < high <= size as real
    ensures Covers(SpanOf(low, high, size), size, low, high)
  {
  }

  lemma {:induction false} ScaledEnds(at: real, length: real, size: nat)
    requires 0.0 <= at && 0.0 < length && at + length <= 1.0 && size > 0
    ensures 0.0 <= at * size as real < (at + length) * size as real <= size as real
  {
    assert (at + length) * size as real == at * size as real + length * size as real;
  }

  /** Every fraction inside [0, 1] of a frame has pixels, so the second emptiness check never
      fires; they are the fewest whole pixels that cover it. */
  lemma {:induction false} FractionIsCovered(at: real, length: real, size: nat)
    requires size > 0
    ensures ToPixels(at, length, size).Some? <==> 0.0 <= at && 0.0 < length && at + length <= 1.0
    ensures ToPixels(at, length, size).Some?
        ==> Covers(ToPixels(at, length, size).value, size, at * size as real, (at + length) * size as real)
  {
    if 0.0 <= at && 0.0 < length && at + length <= 1.0 {
      ScaledEnds(at, length, size);
      SpanCovers(at * size as real, (at + length) * size as real, size);
    }
  }

  datatype Region = Region(x: real, y: real, width: real, height: real)

  datatype PixelRegion = PixelRegion(horizontal: Span, vertical: Span)

  datatype RegionError = InvalidFrame | EmptyRegion

  /** `normalized_to_pixels`, without rounding; a pixel rectangle is a span on each axis. */
  function RegionToPixels(r: Region, width: nat, height: nat): Result<PixelRegion, RegionError> {
    if width == 0 || height == 0 then Err(InvalidFrame)
    else Rectangle(ToPixels(r.x, r.width, width), ToPixels(r.y, r.height, height))
  }

  function Rectangle(h: Option<Span>, v: Option<Span>): Result<PixelRegion, RegionError> {
    if h.None? || v.None? then Err(EmptyRegion) else Ok(PixelRegion(h.value, v.value))
  }

  predicate Fraction(at: real, length: real) {
    0.0 <= at && 0.0 < length && at + length <= 1.0
  }

  /** On one axis: a span exactly for a fraction of it, and one that covers the fraction. */
  predicate AxisCovered(span: Option<Span>, at: real, length: real, size: nat) {
    && (span.Some? <==> Fraction(at, length))
    && (span.Some? ==> Covers(span.value, size, at * size as real, (at + length) * size as real))
  }

  lemma {:induction false} AxisIsCovered(at: real, length: real, size: nat)
    requires size > 0
    ensures AxisCovered(ToPixels(at, length, size), at, length, size)
  {
    FractionIsCovered(at, length, size);
  }

  /** A frame without pixels is refused; otherwise a rectangle is found exactly if the region
      is a fraction of the frame on both axes, and it covers it by the fewest whole pixels. */
  lemma {:induction false} RegionIsCovered(r: Region, width: nat, height: nat)
    ensures RegionToPixels(r, width, height) == Err(InvalidFrame) <==> width == 0 || height == 0
    ensures width > 0 && height > 0 ==>
      var h, v := ToPixels(r.x, r.width, width), ToPixels(r.y, r.height, height);
      && RegionToPixels(r, width, height) == Rectangle(h, v)
      && AxisCovered(h, r.x, r.width, width) && AxisCovered(v, r.y, r.height, height)
  {
    if width > 0 && height > 0 {
      AxisIsCovered(r.x, r.width, width);
      AxisIsCovered(r.y, r.height, height);
    }
  }
}
