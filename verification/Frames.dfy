/** Captured frames: rows of pixels, each row possibly padded to its stride. */
module Frames {

  type Byte = b: int | 0 <= b < 256

  /** `pixel` is the number of bytes per pixel. */
  datatype Frame = Frame(width: nat, height: nat, stride: nat, pixel: nat, data: seq<Byte>)

  /** What `Frame::new` accepts, for the two formats there are. */
  predicate ValidFrame(f: Frame) {
    && f.width > 0 && f.height > 0 && (f.pixel == 3 || f.pixel == 4)
    && f.stride >= f.width * f.pixel && |f.data| == f.stride * f.height
  }

  function Offset(f: Frame, x: nat, y: nat): nat {
    y * f.stride + x * f.pixel
  }

  /** Every pixel of a valid frame lies inside its buffer, before the next row. */
  lemma {:induction false} PixelInBounds(f: Frame, x: nat, y: nat)
    requires ValidFrame(f) && x < f.width && y < f.height
    ensures Offset(f, x, y) + f.pixel <= (y + 1) * f.stride <= |f.data|
  {
    LessTimes(x + 1, f.width, f.pixel);
    LessTimes(y + 1, f.height, f.stride);
    assert (x + 1) * f.pixel == x * f.pixel + f.pixel;
    assert (y + 1) * f.stride == y * f.stride + f.stride;
  }

  lemma {:induction false} LessTimes(a: nat, b: nat, c: nat)
    requires a <= b
    ensures a * c <= b * c
  {
  }

  lemma {:induction false} QuotientBounds(a: nat, d: nat)
    requires d > 0
    ensures (a / d) * d <= a < (a / d + 1) * d
  {
    assert a == (a / d) * d + a % d;
    assert (a / d + 1) * d == (a / d) * d + d;
  }

  /** A quotient is below `b` exactly when the dividend is below `b` divisors. */
  lemma {:induction false} QuotientBelow(a: nat, d: nat, b: nat)
    requires d > 0
    ensures a / d < b <==> a < b * d
  {
    QuotientBounds(a, d);
    if a / d < b { LessTimes(a / d + 1, b, d); } else { LessTimes(b, a / d, d); }
  }

  lemma {:induction false} QuotientMonotone(a: nat, b: nat, d: nat)
    requires d > 0 && a <= b
    ensures a / d <= b / d
  {
    QuotientBelow(a, d, b / d + 1);
    QuotientBounds(b, d);
  }

  /** A position scaled from a range of `to` into one of `from` stays inside it. */
  lemma {:induction false} ScaledBelow(x: nat, from: nat, to: nat)
    requires x < to && from > 0
    ensures x * from / to < from
  {
    LessTimes(x + 1, to, from);
    assert (x + 1) * from == x * from + from;
    assert to * from == from * to;
    QuotientBelow(x * from, to, from);
  }
}
