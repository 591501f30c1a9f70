/** The decision logic of `resize`: the requested half size, orientation after
    resampling, and what the console reports for one file. */
module Resize {
  import opened Base
  import opened Geometry
  import opened Orientation

  /** The size passed to the resampler: both sides halved by unsigned division. */
  function TargetDims(width: u32, height: u32): (r: (u32, u32))
    ensures 2 * (r.0 as int) <= width as int < 2 * (r.0 as int) + 2
    ensures 2 * (r.1 as int) <= height as int < 2 * (r.1 as int) + 2
    ensures r.0 <= width && r.1 <= height
    ensures width <= 1 ==> r.0 == 0
    ensures height <= 1 ==> r.1 == 0
  {
    (width / 2, height / 2)
  }

  /** Orientation step: applied to the already resampled image, and only when a
      value was read. */
  function Reorient<P>(resampled: Image<P>, orientation: Option<u32>): (r: Image<P>)
    requires resampled.Valid()
    ensures r.Valid()
    ensures orientation.None? ==> r == resampled
    ensures orientation.Some? ==> (r.width, r.height) == OrientedDims(resampled.width, resampled.height, orientation.value)
  {
    match orientation
    case None => resampled
    case Some(o) => ApplyOrientation(resampled, o)
  }

  /** Resizing first and orienting second gives the output the size it would have
      had with the steps the other way round: each side of the upright image,
      halved. For values 5 to 8 that is half the stored height by half the
      stored width. */
  lemma ResizeThenOrientDims<P>(width: u32, height: u32, resampled: Image<P>, orientation: Option<u32>)
    requires resampled.Valid()
    requires (resampled.width, resampled.height) == (TargetDims(width, height).0 as nat, TargetDims(width, height).1 as nat)
    ensures var out := Reorient(resampled, orientation);
      var up := if orientation.Some? then OrientedDims(width as nat, height as nat, orientation.value)
                else (width as nat, height as nat);
      out.width == up.0 / 2 && out.height == up.1 / 2
    ensures orientation.Some? && SwapsSides(orientation.value) ==>
      (Reorient(resampled, orientation).width, Reorient(resampled, orientation).height)
        == (height as nat / 2, width as nat / 2)
  {
  }

  /** The console line that ends one file's run. */
  datatype Report = Resized | ErrorResizing

  /** The metadata step, which runs only after a successful decode: either
      the `.expect` calls of `get_img_orientation` abort the process (the file
      cannot be opened again, or it has no Exif block), or the read returns
      the orientation value found, if any. */
  datatype MetadataRead = ReadAborts | ReadReturns(orientation: Option<u32>)

  /** One run of `resize`: either it finishes, having handed an image to `save`
      (none when decoding failed) and printed a report, or the process aborts. */
  datatype FileRun<P> = Finished(saveAttempt: Option<Image<P>>, report: Report) | Aborted

  /** `resize` as written. `resampled` is the decoded and resampled image (`None`
      when decoding failed), `metadata` what the metadata step did and `saveOk`
      whether writing the output succeeded. When the metadata read returns, the
      save result ends up inside the `Ok` value, so `inspect` prints the success
      line and `map_err` never sees a save error. */
  function ResizeFileAsWritten<P>(resampled: Option<Image<P>>, metadata: MetadataRead, saveOk: bool): (r: FileRun<P>)
    requires resampled.Some? ==> resampled.value.Valid()
    ensures r.Aborted? <==> resampled.Some? && metadata.ReadAborts?
    ensures r.Finished? ==> (r.saveAttempt.Some? <==> resampled.Some?)
    ensures r.Finished? ==> (r.report == Resized <==> resampled.Some?)
  {
    match resampled
    case None => Finished(None, ErrorResizing)
    case Some(img) =>
      match metadata
      case ReadAborts => Aborted
      case ReadReturns(orientation) => Finished(Some(Reorient(img, orientation)), Resized)
  }

  /** `resize` as evidently intended: a failed save is reported as an error. The
      abort of the metadata step is kept as it is. */
  function ResizeFile<P>(resampled: Option<Image<P>>, metadata: MetadataRead, saveOk: bool): (r: FileRun<P>)
    requires resampled.Some? ==> resampled.value.Valid()
    ensures r.Aborted? <==> resampled.Some? && metadata.ReadAborts?
    ensures r.Finished? ==> (r.saveAttempt.Some? <==> resampled.Some?)
    ensures r.Finished? ==> (r.report == Resized <==> resampled.Some? && saveOk)
  {
    match resampled
    case None => Finished(None, ErrorResizing)
    case Some(img) =>
      match metadata
      case ReadAborts => Aborted
      case ReadReturns(orientation) =>
        Finished(Some(Reorient(img, orientation)), if saveOk then Resized else ErrorResizing)
  }

  /** Both versions abort on the same inputs and attempt to save the same,
      correctly oriented, image; they differ only in the report, and only when
      the metadata read returns and the save fails. */
  lemma ResizeFileAgrees<P>(resampled: Option<Image<P>>, metadata: MetadataRead, saveOk: bool)
    requires resampled.Some? ==> resampled.value.Valid()
    ensures ResizeFile(resampled, metadata, saveOk).Aborted?
        == ResizeFileAsWritten(resampled, metadata, saveOk).Aborted?
    ensures ResizeFile(resampled, metadata, saveOk).Finished? ==>
      ResizeFile(resampled, metadata, saveOk).saveAttempt
        == ResizeFileAsWritten(resampled, metadata, saveOk).saveAttempt
    ensures resampled.Some? && metadata.ReadReturns? ==>
      ResizeFile(resampled, metadata, saveOk).saveAttempt
        == Some(Reorient(resampled.value, metadata.orientation))
    ensures (ResizeFile(resampled, metadata, saveOk) != ResizeFileAsWritten(resampled, metadata, saveOk))
        <==> resampled.Some? && metadata.ReadReturns? && !saveOk
  {
  }

  /** The input that shows the discrepancy: a decodable image whose metadata
      read returns and whose save fails is reported as resized by the code as
      written. */
  lemma SaveFailureReportedAsResized<P>(img: Image<P>, orientation: Option<u32>)
    requires img.Valid()
    ensures ResizeFileAsWritten(Some(img), ReadReturns(orientation), false).report == Resized
    ensures ResizeFile(Some(img), ReadReturns(orientation), false).report == ErrorResizing
  {
  }
}
