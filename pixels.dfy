// Pixels, images and sample coordinates shared by every fingerprinting
// algorithm.

module Pixels {
  import opened Word

  /**
   * One 32-bit pixel. For a Direct3D A8R8G8B8 surface these are the RGBColor
   * fields; for a three-channel OpenCV image r, g and b are the stored
   * channels 0, 1 and 2 in that order and `a` is unused.
   */
  datatype Color = Color(r: Byte, g: Byte, b: Byte, a: Byte)

  /** What an out-of-bounds sample contributes: intensity 0 and nothing to any channel sum. */
  const Black: Color := Color(0, 0, 0, 0)

  /**
   * A locked surface or a decoded image: its size and the pixel at column x,
   * row y. Only pixels inside the size are ever meaningful; the pitch of the
   * underlying buffer is abstracted away.
   */
  datatype Image = Image(width: nat, height: nat, pixel: (nat, nat) -> Color)

  /** A sample position, column x and row y. */
  datatype Coord = Coord(x: int, y: int)

  predicate InBounds(img: Image, c: Coord)
  {
    0 <= c.x < img.width && 0 <= c.y < img.height
  }

  /** The pixel a hash reads at `c`, or black when `c` lies outside the image. */
  function Sample(img: Image, c: Coord): (p: Color)
    ensures !InBounds(img, c) ==> p == Black
  {
    if InBounds(img, c) then img.pixel(c.x, c.y) else Black
  }

  /** The integer mean of the three colour channels, `(r + g + b) / 3` rounded down. */
  function Intensity(c: Color): (v: Byte)
    ensures 3 * v <= c.r + c.g + c.b < 3 * v + 3
  {
    (c.r + c.g + c.b) / 3
  }

  predicate IsBlack(c: Color)
  {
    c.r == 0 && c.g == 0 && c.b == 0
  }

  /** Every sample the coordinates select from the image is black (out-of-bounds ones are). */
  predicate BlackAt(img: Image, coords: seq<Coord>)
  {
    forall i :: 0 <= i < |coords| ==> IsBlack(Sample(img, coords[i]))
  }

  /** `coord::operator<`: rows first, then columns. */
  predicate CoordLess(a: Coord, b: Coord)
  {
    b.y > a.y || (b.y == a.y && b.x > a.x)
  }

  /** `operator<` is a strict total order on coordinates. */
  lemma CoordLessStrictTotalOrder(a: Coord, b: Coord, c: Coord)
    ensures !CoordLess(a, a)
    ensures CoordLess(a, b) ==> !CoordLess(b, a)
    ensures CoordLess(a, b) && CoordLess(b, c) ==> CoordLess(a, c)
    ensures a == b || CoordLess(a, b) || CoordLess(b, a)
  {
  }

  /** Position of a pixel of an image `width` columns wide in row-major storage order. */
  function RowMajorIndex(c: Coord, width: nat): int
  {
    c.y * width + c.x
  }

  /**
   * On the columns of an image, `operator<` is exactly the order in which a
   * row-major buffer stores the pixels.
   */
  lemma CoordLessIsRowMajor(a: Coord, b: Coord, width: nat)
    requires 0 <= a.x < width && 0 <= b.x < width
    ensures CoordLess(a, b) <==> RowMajorIndex(a, width) < RowMajorIndex(b, width)
  {
    if a.y < b.y {
      RowsApart(a, b, width);
    } else if a.y > b.y {
      RowsApart(b, a, width);
    }
  }

  /** A pixel on a lower row is stored after every pixel of a higher row. */
  lemma RowsApart(lo: Coord, hi: Coord, width: nat)
    requires lo.y < hi.y && 0 <= lo.x < width && 0 <= hi.x < width
    ensures RowMajorIndex(lo, width) < RowMajorIndex(hi, width)
  {
    var d := hi.y - lo.y;
    assert hi.y * width == lo.y * width + d * width;
    MulMonotone(width, 1, d);
  }
}
