/** Orientation handling: reading the Orientation tag (0x0112) and
    `apply_orientation`, checked against the meaning TIFF 6.0 (section 8,
    Baseline Field Reference) gives each tag value. */
module Orientation {
  import opened Base
  import opened Geometry

  /** `apply_orientation`: the transform that presents a stored image upright. */
  function ApplyOrientation<P>(img: Image<P>, orientation: u32): (r: Image<P>)
    requires img.Valid()
    ensures r.Valid()
    ensures (r.width, r.height) == OrientedDims(img.width, img.height, orientation)
  {
    match orientation
    case 2 => FlipH(img)
    case 3 => Rotate180(img)
    case 4 => FlipV(img)
    case 5 => FlipH(Rotate90(img))
    case 6 => Rotate90(img)
    case 7 => FlipH(Rotate270(img))
    case 8 => Rotate270(img)
    case _ => img
  }

  /** Values 5 to 8 store the image on its side. */
  predicate SwapsSides(orientation: u32)
  {
    5 <= orientation <= 8
  }

  /** The size of the upright image for a stored `width` by `height` one. */
  function OrientedDims(width: nat, height: nat, orientation: u32): (nat, nat)
  {
    if SwapsSides(orientation) then (height, width) else (width, height)
  }

  /** Value 1 and every value outside 2..8 leave the image as it is. */
  lemma IdentityOutsideTable<P>(img: Image<P>, orientation: u32)
    requires img.Valid()
    requires orientation < 2 || 8 < orientation
    ensures ApplyOrientation(img, orientation) == img
  {
  }

  /** Value 5 is the transpose (row `y` becomes column `y`), and value 7 the
      transpose about the other diagonal: in both the rotation comes first. */
  lemma TransposeValues<P>(img: Image<P>)
    requires img.Valid()
    ensures var r := ApplyOrientation(img, 5);
      forall x, y :: 0 <= x < r.width && 0 <= y < r.height ==> r.rows[y][x] == img.rows[x][y]
    ensures var r := ApplyOrientation(img, 7);
      forall x, y :: 0 <= x < r.width && 0 <= y < r.height ==>
        r.rows[y][x] == img.rows[img.height - 1 - x][img.width - 1 - y]
  {
  }

  /** A side of the displayed image. */
  datatype Side = Top | Bottom | Left | Right

  /** TIFF 6.0 describes each value by the visual side that the stored 0th row
      and the stored 0th column represent. */
  datatype Layout = Layout(row0: Side, column0: Side)

  /** The table of TIFF 6.0, section 8, Orientation. Values outside 1..8 are
      not defined there; the program treats them like 1. */
  function TiffLayout(orientation: u32): Layout
  {
    match orientation
    case 2 => Layout(Top, Right)
    case 3 => Layout(Bottom, Right)
    case 4 => Layout(Bottom, Left)
    case 5 => Layout(Left, Top)
    case 6 => Layout(Right, Top)
    case 7 => Layout(Right, Bottom)
    case 8 => Layout(Left, Bottom)
    case _ => Layout(Top, Left)
  }

  /** The upright image a viewer reconstructs from the stored one by reading the
      layout literally: when the 0th row is the top or bottom, stored rows are
      visual rows; when it is the left or right side, stored rows are visual
      columns. Independent of any flip or rotate. */
  function Upright<P>(stored: Image<P>, layout: Layout): (r: Image<P>)
    requires stored.Valid()
    ensures r.Valid()
  {
    var w, h := stored.width, stored.height;
    if layout.row0 == Top || layout.row0 == Bottom then
      Image(w, h,
        seq(h, y requires 0 <= y < h =>
          seq(w, x requires 0 <= x < w =>
            stored.rows[if layout.row0 == Top then y else h - 1 - y]
                       [if layout.column0 == Left then x else w - 1 - x])))
    else
      Image(h, w,
        seq(w, y requires 0 <= y < w =>
          seq(h, x requires 0 <= x < h =>
            stored.rows[if layout.row0 == Left then x else h - 1 - x]
                       [if layout.column0 == Top then y else w - 1 - y])))
  }

  /** `apply_orientation` agrees with the TIFF 6.0 table for every value. */
  lemma ApplyOrientationMatchesTiff<P>(img: Image<P>, orientation: u32)
    requires img.Valid()
    ensures ApplyOrientation(img, orientation) == Upright(img, TiffLayout(orientation))
  {
    SamePixels(ApplyOrientation(img, orientation), Upright(img, TiffLayout(orientation)));
  }

  /** The value whose transform undoes that of `orientation`: 6 and 8 swap,
      every other value undoes itself. */
  function InverseOrientation(orientation: u32): u32
  {
    if orientation == 6 then 8 else if orientation == 8 then 6 else orientation
  }

  /** Every orientation transform can be undone, so it loses no pixel. */
  lemma OrientationInvertible<P>(img: Image<P>, orientation: u32)
    requires img.Valid()
    ensures ApplyOrientation(ApplyOrientation(img, orientation), InverseOrientation(orientation)) == img
  {
    var r := ApplyOrientation(ApplyOrientation(img, orientation), InverseOrientation(orientation));
    SamePixels(r, img);
  }

  /** The Orientation field's value as the metadata reader exposes it: a list
      of unsigned integers (BYTE, SHORT or LONG) or a value of another type. */
  datatype FieldValue = Unsigned(values: seq<u32>) | OtherType

  /** `get_img_orientation` once the metadata has been read: the first unsigned
      value of the primary image's Orientation field, if there is one. */
  function ReadOrientation(field: Option<FieldValue>): (r: Option<u32>)
    ensures r.Some? <==> field.Some? && field.value.Unsigned? && |field.value.values| > 0
    ensures r.Some? ==> r.value == field.value.values[0]
  {
    match field
    case None => None
    case Some(OtherType) => None
    case Some(Unsigned(vs)) => if |vs| == 0 then None else Some(vs[0])
  }
}
