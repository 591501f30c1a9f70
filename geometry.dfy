/** Decoded images as grids of abstract pixels, and the by-value flip and
    rotate transforms `apply_orientation` composes. Rotations are clockwise. */
module Geometry {

  /** `height` rows of `width` pixels; `rows[y][x]` is the pixel in column `x` of row `y`. */
  datatype Image<P> = Image(width: nat, height: nat, rows: seq<seq<P>>)
  {
    ghost predicate Valid()
    {
      |rows| == height && forall y :: 0 <= y < height ==> |rows[y]| == width
    }
  }

  /** Two well-formed images of one size with the same pixels are the same image. */
  lemma SamePixels<P>(a: Image<P>, b: Image<P>)
    requires a.Valid() && b.Valid() && a.width == b.width && a.height == b.height
    requires forall x, y :: 0 <= x < a.width && 0 <= y < a.height ==> a.rows[y][x] == b.rows[y][x]
    ensures a == b
  {
    forall y | 0 <= y < a.height ensures a.rows[y] == b.rows[y] {
      assert forall x :: 0 <= x < a.width ==> a.rows[y][x] == b.rows[y][x];
    }
  }

  /** Mirror left to right. */
  function FlipH<P>(img: Image<P>): (r: Image<P>)
    requires img.Valid()
    ensures r.Valid() && r.width == img.width && r.height == img.height
    ensures forall x, y :: 0 <= x < r.width && 0 <= y < r.height ==>
      r.rows[y][x] == img.rows[y][img.width - 1 - x]
  {
    Image(img.width, img.height,
      seq(img.height, y requires 0 <= y < img.height =>
        seq(img.width, x requires 0 <= x < img.width => img.rows[y][img.width - 1 - x])))
  }

  /** Mirror top to bottom. */
  function FlipV<P>(img: Image<P>): (r: Image<P>)
    requires img.Valid()
    ensures r.Valid() && r.width == img.width && r.height == img.height
    ensures forall x, y :: 0 <= x < r.width && 0 <= y < r.height ==>
      r.rows[y][x] == img.rows[img.height - 1 - y][x]
  {
    Image(img.width, img.height,
      seq(img.height, y requires 0 <= y < img.height =>
        seq(img.width, x requires 0 <= x < img.width => img.rows[img.height - 1 - y][x])))
  }

  /** Quarter turn clockwise: the bottom-left pixel becomes the top-left one. */
  function Rotate90<P>(img: Image<P>): (r: Image<P>)
    requires img.Valid()
    ensures r.Valid() && r.width == img.height && r.height == img.width
    ensures forall x, y :: 0 <= x < r.width && 0 <= y < r.height ==>
      r.rows[y][x] == img.rows[img.height - 1 - x][y]
  {
    Image(img.height, img.width,
      seq(img.width, y requires 0 <= y < img.width =>
        seq(img.height, x requires 0 <= x < img.height => img.rows[img.height - 1 - x][y])))
  }

  /** Half turn. */
  function Rotate180<P>(img: Image<P>): (r: Image<P>)
    requires img.Valid()
    ensures r.Valid() && r.width == img.width && r.height == img.height
    ensures forall x, y :: 0 <= x < r.width && 0 <= y < r.height ==>
      r.rows[y][x] == img.rows[img.height - 1 - y][img.width - 1 - x]
  {
    Image(img.width, img.height,
      seq(img.height, y requires 0 <= y < img.height =>
        seq(img.width, x requires 0 <= x < img.width => img.rows[img.height - 1 - y][img.width - 1 - x])))
  }

  /** Three quarter turns clockwise: the top-right pixel becomes the top-left one. */
  function Rotate270<P>(img: Image<P>): (r: Image<P>)
    requires img.Valid()
    ensures r.Valid() && r.width == img.height && r.height == img.width
    ensures forall x, y :: 0 <= x < r.width && 0 <= y < r.height ==>
      r.rows[y][x] == img.rows[x][img.width - 1 - y]
  {
    Image(img.height, img.width,
      seq(img.width, y requires 0 <= y < img.width =>
        seq(img.height, x requires 0 <= x < img.height => img.rows[x][img.width - 1 - y])))
  }

  /** Each flip undoes itself. */
  lemma FlipsAreInvolutions<P>(img: Image<P>)
    requires img.Valid()
    ensures FlipH(FlipH(img)) == img && FlipV(FlipV(img)) == img
  {
    SamePixels(FlipH(FlipH(img)), img);
    SamePixels(FlipV(FlipV(img)), img);
  }

  /** A quarter turn and three quarter turns undo each other, in either order. */
  lemma RotationsInverse<P>(img: Image<P>)
    requires img.Valid()
    ensures Rotate270(Rotate90(img)) == img && Rotate90(Rotate270(img)) == img
  {
    SamePixels(Rotate270(Rotate90(img)), img);
    SamePixels(Rotate90(Rotate270(img)), img);
  }

  /** A half turn is two quarter turns, and also both flips. */
  lemma HalfTurn<P>(img: Image<P>)
    requires img.Valid()
    ensures Rotate180(img) == Rotate90(Rotate90(img))
    ensures Rotate180(img) == FlipV(FlipH(img))
    ensures Rotate270(img) == Rotate90(Rotate180(img))
  {
    SamePixels(Rotate180(img), Rotate90(Rotate90(img)));
    SamePixels(Rotate180(img), FlipV(FlipH(img)));
    SamePixels(Rotate270(img), Rotate90(Rotate180(img)));
  }
}
