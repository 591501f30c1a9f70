/** Paths as sequences of components, the file-name and extension rules of
    Rust's `std::path::Path`, and the output path the tool derives for an input. */
module Paths {
  import opened Base

  /** A path is the sequence of its components (`a/b/c.jpg` is `["a", "b", "c.jpg"]`). */
  type Path = seq<string>

  /** `Path::file_name`: the last component, absent for an empty path and for one ending in `..`. */
  function FileName(p: Path): (r: Option<string>)
    ensures r.Some? <==> |p| > 0 && p[|p| - 1] != ".."
    ensures r.Some? ==> p == p[..|p| - 1] + [r.value]
  {
    if |p| == 0 || p[|p| - 1] == ".." then None else Some(p[|p| - 1])
  }

  /** Index of the last `.` in `s`, if any. */
  function LastDot(s: string): (r: Option<nat>)
    ensures r.Some? ==> r.value < |s| && s[r.value] == '.'
    ensures r.Some? ==> forall j :: r.value < j < |s| ==> s[j] != '.'
    ensures r.None? ==> forall j :: 0 <= j < |s| ==> s[j] != '.'
  {
    if |s| == 0 then None
    else if s[|s| - 1] == '.' then Some(|s| - 1)
    else LastDot(s[..|s| - 1])
  }

  /** `Path::extension` of a file name: the text after the last `.`, absent when
      there is no `.`, when the only `.` begins the name (`.jpg`), and for `..`. */
  function Extension(name: string): (r: Option<string>)
    ensures r.Some? ==> |r.value| < |name| && SplitsAs(name, name[..|name| - |r.value| - 1], r.value)
    ensures r.None? <==> name == ".." || forall i :: 0 < i < |name| ==> name[i] != '.'
  {
    if name == ".." then None
    else match LastDot(name)
      case None => None
      case Some(i) =>
        if i == 0 then None
        else assert name == name[..i] + "." + name[i + 1..]; Some(name[i + 1..])
  }

  /** A name splits into a non-empty stem, a `.` and an extension free of dots. */
  ghost predicate SplitsAs(name: string, stem: string, ext: string)
  {
    name == stem + "." + ext && stem != "" && forall j :: 0 <= j < |ext| ==> ext[j] != '.'
  }

  /** The last dot of `stem.ext` is the one before a dot-free extension. */
  lemma {:induction false} LastDotOfSplit(stem: string, ext: string)
    requires forall j :: 0 <= j < |ext| ==> ext[j] != '.'
    ensures LastDot(stem + "." + ext) == Some(|stem|)
  {
    var name := stem + "." + ext;
    assert name[|stem|] == '.';
    forall j | |stem| < j < |name| ensures name[j] != '.' {
      assert name[j] == ext[j - |stem| - 1];
    }
  }

  /** Joining a non-empty stem and a dot-free extension gives back that extension,
      except for the one name `..`. */
  lemma ExtensionOfSplit(stem: string, ext: string)
    requires stem != "" && forall j :: 0 <= j < |ext| ==> ext[j] != '.'
    ensures Extension(stem + "." + ext) == if stem + "." + ext == ".." then None else Some(ext)
  {
    var name := stem + "." + ext;
    LastDotOfSplit(stem, ext);
    assert name[|stem| + 1..] == ext;
  }

  /** A name with an extension is a usable file name: non-empty and not `..`. */
  lemma ExtensionImpliesFileName(dir: Path, name: string)
    requires Extension(name).Some?
    ensures FileName(dir + [name]) == Some(name)
  {
  }

  /** `ensure_resized_dir`: the `resized` sub-directory of the input directory. */
  function ResizedDir(dir: Path): (r: Path)
    ensures |r| == |dir| + 1 && r[..|dir|] == dir && FileName(r) == Some("resized")
  {
    dir + ["resized"]
  }

  /** The output path `main` passes to `resize`: the resized directory joined with
      the input's own file name (the source unwraps that name, so it must exist). */
  function OutputPath(resizedDir: Path, input: Path): (r: Path)
    requires FileName(input).Some?
    ensures FileName(r) == FileName(input)
    ensures |r| == |resizedDir| + 1 && r[..|resizedDir|] == resizedDir
  {
    resizedDir + [FileName(input).value]
  }

  /** Within one resized directory, two inputs share an output path exactly when
      they share a file name. */
  lemma OutputPathInjective(resizedDir: Path, p: Path, q: Path)
    requires FileName(p).Some? && FileName(q).Some?
    ensures OutputPath(resizedDir, p) == OutputPath(resizedDir, q) <==> FileName(p) == FileName(q)
  {
    if OutputPath(resizedDir, p) == OutputPath(resizedDir, q) {
      assert FileName(OutputPath(resizedDir, p)) == FileName(OutputPath(resizedDir, q));
    }
  }
}
