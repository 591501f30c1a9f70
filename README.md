# img-resize: a Dafny model of its decision logic

`img-resize` halves the size of the JPEG files in one directory. It writes each
result, under the same file name, to a `resized` sub-directory. When the
image's Exif data carries an Orientation value, the tool also turns or mirrors
the resampled image so that it is stored upright.

This project models the pure decisions in `src/main.rs` and proves properties
about them:

- **Scanner** (`Scan`, with `Paths` for names): `get_file_paths` is a filter
  over one directory listing. It keeps an entry exactly when the entry is
  readable and the extension of its name, lowercased, is `jpg` or `jpeg`.
  The extension follows the rule of Rust's `Path::extension`. It is the text
  after the last dot. There is none when the name has no dot, when the only
  dot starts the name (`.jpg`), or when the name is `..`. An unreadable
  directory is `None` and yields the empty sequence.
- **Dimensions** (`Resize.TargetDims`): the requested size is both sides
  halved by unsigned (floor) division.
- **Orientation** (`Geometry`, `Orientation`): an image is a grid of abstract
  pixels. `FlipH`, `FlipV`, `Rotate90`, `Rotate180` and `Rotate270` (clockwise)
  are functions on that grid. `ApplyOrientation` is the source's `match`.
  It is checked against an independent reading of the Orientation table in
  TIFF 6.0, section 8 (Baseline Field Reference), which Exif reuses: for each
  value, the table says which visual side the stored 0th row and the stored
  0th column represent.
- **Per-file run** (`Resize`): orientation is applied after resampling, and
  only when a value was read. The run either ends with one report line, or
  the whole process aborts because the metadata read failed.
- **Batch** (`Batch`, `Paths`): each selected input `<dir>/<name>` is paired
  with the output `<dir>/resized/<name>`.

Paths are sequences of components. File names are Unicode strings.

## Model

| member | source | states |
|---|---|---|
| `Paths.FileName` | src/main.rs:99 | The file name exists exactly when the path is non-empty and does not end in `..`; the path is then its parent plus that name |
| `Paths.LastDot` | src/main.rs:21 | The index found holds a `.` and no later character is a `.`; no index is found only when the name has no `.` |
| `Paths.LastDotOfSplit` | src/main.rs:21 | In `stem.ext` with a dot-free `ext`, the last dot is the one right after the stem |
| `Paths.Extension` | src/main.rs:21-22 | An extension found splits the name into a non-empty stem, a dot and that dot-free extension; none is found exactly when the name is `..` or has no dot after its first character |
| `Paths.ExtensionOfSplit` | src/main.rs:21-22 | A non-empty stem, a dot and a dot-free extension give back that extension, except for the name `..` |
| `Paths.ExtensionImpliesFileName` | src/main.rs:99 | A name that has an extension is a valid file name of `<dir>/<name>` |
| `Paths.ResizedDir` | src/main.rs:5-6 | The output directory is the input directory plus the one component `resized` |
| `Paths.OutputPath` | src/main.rs:99 | The output keeps the input's file name and lies directly inside the resized directory |
| `Paths.OutputPathInjective` | src/main.rs:99 | In one resized directory, two inputs map to the same output exactly when their file names are equal |
| `Scan.Lower` | src/main.rs:23 | Same length; exactly the ASCII capitals change, and the result has none left |
| `Scan.LowerCharIs` | src/main.rs:23 | Under the model's ASCII lowercasing, a character lowercases to a given lower-case ASCII letter exactly when it is that letter in either case (for Rust's Unicode lowercasing this fails for `k`, which U+212A KELVIN SIGN also lowercases to) |
| `Scan.LowerSpells` | src/main.rs:23-24 | Lowercasing gives a lower-case word exactly when the text spells that word in any mix of cases |
| `Scan.IsJpegExtension` | src/main.rs:23-24 | The extension test accepts exactly the spellings of `jpg` and `jpeg` in any mix of cases, both directions |
| `Scan.IsJpegName` | src/main.rs:18-26 | A name passes exactly when it ends in `.jpg` or `.jpeg`, in any case, after a non-empty stem |
| `Scan.JpegNameSuffix` | src/main.rs:21-24 | The name has an extension that passes the test exactly when it ends in a dot and a spelling of `jpg` or `jpeg` after a non-empty stem |
| `Scan.JpegSuffixSplits` | src/main.rs:21-22 | A name ending in `.` and a case spelling of `jpg` or `jpeg`, after a non-empty stem, has that spelling as its extension |
| `Scan.ExtensionExamples` | src/main.rs:23-24 | `JPG`, `JpEg` and `jpeg` pass; `png`, `jpgx` and the empty extension fail |
| `Scan.NoExtensionNotSelected` | src/main.rs:21-24 | Names like `.jpg` and names without a dot are never selected |
| `Scan.FilterEntries` | src/main.rs:16-28 | The result is no longer than the listing, and each path in it is `<dir>/<name>` for a name that passes the test |
| `Scan.GetFilePaths` | src/main.rs:13-34 | An unreadable directory gives the empty sequence; otherwise each returned path has a file name that passes the test |
| `Scan.FilterAppend` | src/main.rs:16-28 | Filtering a concatenated listing is concatenating the filtered parts, so listing order is kept |
| `Scan.FilterOne` | src/main.rs:17-26 | A single entry is kept as `<dir>/<name>` exactly when it is readable and its name passes; otherwise it is dropped |
| `Scan.FilterMembership` | src/main.rs:16-28 | A path is returned exactly when some readable entry with a passing name produced it: nothing is added and nothing is lost |
| `Scan.NoJpegNoFiles` | src/main.rs:16-28 | A listing with no readable JPEG entry yields no files |
| `Scan.FilterDistinct` | src/main.rs:16-28 | Entries with distinct names give pairwise distinct paths |
| `Scan.ScanExample` | src/main.rs:13-34 | From a non-JPEG, a JPEG and an unreadable entry only the JPEG is kept; an unreadable directory gives nothing |
| `Geometry.FlipH` | src/main.rs:48 | Same size; the pixel at column `x` comes from column `width-1-x` of the same row |
| `Geometry.FlipV` | src/main.rs:50 | Same size; the pixel in row `y` comes from row `height-1-y` of the same column |
| `Geometry.Rotate90` | src/main.rs:52 | Sides swap; the pixel at `(x, y)` comes from `(y, height-1-x)`, a clockwise quarter turn |
| `Geometry.Rotate180` | src/main.rs:49 | Same size; the pixel at `(x, y)` comes from the point reflected through the centre |
| `Geometry.Rotate270` | src/main.rs:54 | Sides swap; the pixel at `(x, y)` comes from `(width-1-y, x)`, three clockwise quarter turns |
| `Geometry.FlipsAreInvolutions` | src/main.rs:48-50 | Flipping twice, horizontally or vertically, gives back the image |
| `Geometry.RotationsInverse` | src/main.rs:52-54 | A quarter turn and three quarter turns undo each other in either order |
| `Geometry.HalfTurn` | src/main.rs:49-54 | A half turn equals two quarter turns and equals both flips; three quarter turns equal a quarter turn after a half turn |
| `Orientation.ApplyOrientation` | src/main.rs:46-57 | The result is a well-formed image; values 5 to 8 swap width and height, and every other value keeps them |
| `Orientation.IdentityOutsideTable` | src/main.rs:55 | Value 1 and every value outside 2..8 return the image unchanged |
| `Orientation.TransposeValues` | src/main.rs:51-53 | Value 5 (rotate 90, then flip) is the transpose; value 7 (rotate 270, then flip) is the transpose about the other diagonal |
| `Orientation.ApplyOrientationMatchesTiff` | src/main.rs:46-57 | For every value, the result is the upright image that the TIFF 6.0 row/column table describes |
| `Orientation.OrientationInvertible` | src/main.rs:46-57 | Every orientation transform is undone by the inverse value (6 and 8 swap, the rest undo themselves), so no pixel is lost |
| `Orientation.ReadOrientation` | src/main.rs:41-43 | A value is read exactly when the field exists, is unsigned and is non-empty; it is the first one |
| `Resize.TargetDims` | src/main.rs:65-67 | Each side becomes the unique `q` with `2q <= side < 2q + 2`; it is at most the original, and a side of 0 or 1 becomes 0 |
| `Resize.Reorient` | src/main.rs:71-74 | With no value the resampled image is kept; with a value its size is the oriented size of the resampled image |
| `Resize.ResizeThenOrientDims` | src/main.rs:64-74 | If the resampler returns the requested size, resizing then orienting gives each upright side halved; for values 5 to 8 that is half the height by half the width |
| `Resize.ResizeFileAsWritten` | src/main.rs:59-84 | As written: the process aborts exactly when decoding succeeded and the metadata read aborts (src/main.rs:37-40). Otherwise a save is attempted exactly when decoding succeeded, and "Resized" is reported exactly then, whatever the save did |
| `Resize.ResizeFile` | src/main.rs:59-84 | Corrected: the same aborts; when the metadata read returns, "Resized" is reported exactly when decoding and saving both succeeded |
| `Resize.ResizeFileAgrees` | src/main.rs:71-83 | Both versions abort on the same inputs and save the same reoriented image; they differ exactly when a decoded image's metadata read returns and its save fails |
| `Resize.SaveFailureReportedAsResized` | src/main.rs:75-83 | When the metadata read returns, a decodable image whose save fails is reported as resized by the code as written, and as an error by the correction |
| `Batch.ScannedPathsHaveNames` | src/main.rs:98-99 | Every scanned path has a file name, so `main`'s unwrap cannot fail |
| `Batch.Plan` | src/main.rs:97-100 | One job per scanned path, in scan order; each output is `<dir>/resized/<file name of the input>` |
| `Batch.PlanOutputsDistinct` | src/main.rs:98-99 | When the directory's names are distinct, no two jobs share an output path |
| `Batch.PlanLocations` | src/main.rs:97-99 | Every input lies directly in `<dir>` and every output directly in `<dir>/resized` |

## Left out

- Filesystem access is left out: `read_dir`, `metadata`, `exists`, `create_dir` and the directory/not-a-directory branch in `main` (src/main.rs:7-8, 14, 94-105). The listing is a parameter (`None` for an unreadable directory). Creating `resized` is not modelled.
- JPEG decoding and encoding (`ImageReader::open`, `decode`, `save`) are foreign library calls. Their outcomes are parameters: the resampled image, or `None` when decoding failed, and a flag saying whether the save succeeded.
- Lanczos3 resampling is floating-point numerics, so pixel values after resizing are not modelled.
- Resize.ResizeThenOrientDims: assumes that the resampler returns an image of exactly the requested size. The image library keeps the aspect ratio and never returns a zero side, so a 101×200 image asked for 50×100 comes back 50×99, and a 1×1 image asked for 0×0 comes back 1×1. That fitting is not part of this model.
- EXIF container parsing in `get_img_orientation` is left out. The aborts of its `.expect` calls (src/main.rs:37, 40) are an outcome of the metadata step, `ReadAborts`. The aborts of `ImageReader::open(...).expect` (src/main.rs:61) and of `create_dir(...).expect` (src/main.rs:8) are left out.
- Resize.ResizeFileAsWritten: the metadata abort is the outcome `Aborted`. It happens for every decodable JPEG without an Exif block. That this abort also ends the batch, so the remaining files are never processed, is not modelled, because `Batch.Plan` does not run the jobs.
- `ReadOrientation` starts from the Orientation field of the primary image, if any. BYTE, SHORT and LONG values are merged into one list of unsigned values.
- Console text (`println!`/`eprintln!`) and the argument-count check are left out. Only which report ends a file's run is modelled.
- Names that are not valid UTF-8 are left out. File names here are Unicode strings, so the branch where `to_str` fails does not occur.
- `Scan.LowerChar`: only ASCII letters are lowercased. In Unicode's case mappings no non-ASCII character lowercases to `j`, `p`, `g` or `e`, so the selection verdict is unaffected.
- Path syntax (separators, roots, `.` components, normalisation) is not modelled. A path is a sequence of components.
- The model follows the code where the code differs from the tool's intended behaviour. The filter never looks at the entry type, so a directory named `x.jpg` is selected like a file. A failed save is not reported as an error (see Findings).

## Findings

| source | as written | input that shows it | evidently intended | confidence | as-written member | corrected member |
|---|---|---|---|---|---|---|
| src/main.rs:75-83 | `save`'s own result is wrapped inside the `Ok` value. `inspect` then prints "Resized" and `map_err` never sees the save error, which `let _` discards | a decodable JPEG that carries an Exif block and whose output file cannot be written | a failed save reported as "Error resizing", like a failed decode | high; not executed | `Resize.ResizeFileAsWritten` (exhibited by `Resize.SaveFailureReportedAsResized`) | `Resize.ResizeFile` |
