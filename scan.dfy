/** The directory scanner, `get_file_paths`: keep the entries of one directory
    listing whose extension, lowercased, is `jpg` or `jpeg`. */
module Scan {
  import opened Base
  import opened Paths

  /** One item of the directory iterator: an entry that could not be read, or
      the name of a directly contained entry. */
  datatype DirEntry = Unreadable | Entry(name: string)

  /** `to_lowercase` on one character; only ASCII letters change. */
  function LowerChar(c: char): char
  {
    if 'A' <= c <= 'Z' then (c as int - 'A' as int + 'a' as int) as char else c
  }

  /** `to_uppercase` on one character; only ASCII letters change. */
  function UpperChar(c: char): char
  {
    if 'a' <= c <= 'z' then (c as int - 'a' as int + 'A' as int) as char else c
  }

  /** `to_lowercase` on a string: exactly the ASCII capitals change, and none is left. */
  function Lower(s: string): (r: string)
    ensures |r| == |s|
    ensures forall i :: 0 <= i < |s| ==> (r[i] != s[i] <==> 'A' <= s[i] <= 'Z')
    ensures forall i :: 0 <= i < |r| ==> !('A' <= r[i] <= 'Z')
  {
    seq(|s|, i requires 0 <= i < |s| => LowerChar(s[i]))
  }

  /** The extension test of the filter: it accepts exactly the spellings of `jpg`
      and `jpeg` in any mix of upper and lower case. */
  function IsJpegExtension(ext: string): (b: bool)
    ensures b <==> SpellsIgnoringCase(ext, "jpg") || SpellsIgnoringCase(ext, "jpeg")
  {
    LowerSpells(ext, "jpg");
    LowerSpells(ext, "jpeg");
    Lower(ext) == "jpg" || Lower(ext) == "jpeg"
  }

  /** A name the scanner keeps: it ends in `.jpg` or `.jpeg`, in any case, after
      a non-empty stem. */
  function IsJpegName(name: string): (b: bool)
    ensures b <==>
      (|name| > 4 && name[|name| - 4] == '.' && SpellsIgnoringCase(name[|name| - 3..], "jpg")) ||
      (|name| > 5 && name[|name| - 5] == '.' && SpellsIgnoringCase(name[|name| - 4..], "jpeg"))
  {
    JpegNameSuffix(name);
    match Extension(name)
    case None => false
    case Some(ext) => IsJpegExtension(ext)
  }

  /** The extension of a name passes the test exactly when the name ends in a
      dot and a spelling of `jpg` or `jpeg` after a non-empty stem. */
  lemma JpegNameSuffix(name: string)
    ensures (Extension(name).Some? && IsJpegExtension(Extension(name).value)) <==>
      (|name| > 4 && name[|name| - 4] == '.' && SpellsIgnoringCase(name[|name| - 3..], "jpg")) ||
      (|name| > 5 && name[|name| - 5] == '.' && SpellsIgnoringCase(name[|name| - 4..], "jpeg"))
  {
    if |name| > 4 && name[|name| - 4] == '.' && SpellsIgnoringCase(name[|name| - 3..], "jpg") {
      JpegSuffixSplits(name, "jpg");
    }
    if |name| > 5 && name[|name| - 5] == '.' && SpellsIgnoringCase(name[|name| - 4..], "jpeg") {
      JpegSuffixSplits(name, "jpeg");
    }
    var e := Extension(name);
    if e.Some? && IsJpegExtension(e.value) {
      var stem := name[..|name| - |e.value| - 1];
      assert name == stem + "." + e.value;
      assert name[|name| - |e.value| - 1] == '.';
      assert name[|name| - |e.value|..] == e.value;
    }
  }

  /** A name ending in `.` and a case spelling of `word` has that spelling as its extension. */
  lemma JpegSuffixSplits(name: string, word: string)
    requires word == "jpg" || word == "jpeg"
    requires |name| > |word| + 1 && name[|name| - |word| - 1] == '.'
    requires SpellsIgnoringCase(name[|name| - |word|..], word)
    ensures Extension(name) == Some(name[|name| - |word|..])
  {
    var stem, ext := name[..|name| - |word| - 1], name[|name| - |word|..];
    assert name == stem + "." + ext;
    forall j | 0 <= j < |ext| ensures ext[j] != '.' {
      assert ext[j] == word[j] || ext[j] == UpperChar(word[j]);
    }
    ExtensionOfSplit(stem, ext);
  }

  /** `ext` spells the lower-case word `word` with any letters in either case. */
  ghost predicate SpellsIgnoringCase(ext: string, word: string)
  {
    |ext| == |word| && forall i :: 0 <= i < |ext| ==> ext[i] == word[i] || ext[i] == UpperChar(word[i])
  }

  lemma LowerCharIs(c: char, w: char)
    requires 'a' <= w <= 'z'
    ensures LowerChar(c) == w <==> c == w || c == UpperChar(w)
  {
  }

  lemma LowerSpells(ext: string, word: string)
    requires forall i :: 0 <= i < |word| ==> 'a' <= word[i] <= 'z'
    ensures Lower(ext) == word <==> SpellsIgnoringCase(ext, word)
  {
    if Lower(ext) == word {
      forall i | 0 <= i < |ext| ensures ext[i] == word[i] || ext[i] == UpperChar(word[i]) {
        LowerCharIs(ext[i], word[i]);
      }
    }
    if SpellsIgnoringCase(ext, word) {
      forall i | 0 <= i < |ext| ensures Lower(ext)[i] == word[i] {
        LowerCharIs(ext[i], word[i]);
      }
    }
  }

  /** What the filter makes of one entry. */
  function Kept(dir: Path, e: DirEntry): seq<Path>
  {
    if e.Entry? && IsJpegName(e.name) then [dir + [e.name]] else []
  }

  /** The `filter_map` and `collect` over a readable listing, in listing order. */
  function FilterEntries(dir: Path, es: seq<DirEntry>): (r: seq<Path>)
    ensures |r| <= |es|
    ensures forall k :: 0 <= k < |r| ==>
      |r[k]| == |dir| + 1 && r[k][..|dir|] == dir && IsJpegName(r[k][|dir|])
  {
    if es == [] then [] else Kept(dir, es[0]) + FilterEntries(dir, es[1..])
  }

  /** `get_file_paths`: `None` is a directory that could not be read. */
  function GetFilePaths(dir: Path, listing: Option<seq<DirEntry>>): (r: seq<Path>)
    ensures listing.None? ==> r == []
    ensures listing.Some? ==> |r| <= |listing.value|
    ensures forall k :: 0 <= k < |r| ==> FileName(r[k]).Some? && IsJpegName(FileName(r[k]).value)
  {
    match listing
    case None => []
    case Some(es) => FilterEntries(dir, es)
  }

  /** Filtering a listing is filtering its parts: the result keeps the listing's
      order, and together with `FilterOne` this determines the filter entirely. */
  lemma {:induction false} FilterAppend(dir: Path, a: seq<DirEntry>, b: seq<DirEntry>)
    ensures FilterEntries(dir, a + b) == FilterEntries(dir, a) + FilterEntries(dir, b)
  {
    if a == [] {
      assert a + b == b;
    } else {
      assert (a + b)[1..] == a[1..] + b;
      FilterAppend(dir, a[1..], b);
    }
  }

  lemma FilterOne(dir: Path, e: DirEntry)
    ensures FilterEntries(dir, [e]) == if e.Entry? && IsJpegName(e.name) then [dir + [e.name]] else []
  {
    assert [e][1..] == [];
  }

  /** A path is listed exactly when some readable entry with a JPEG name gave it. */
  lemma {:induction false} FilterMembership(dir: Path, es: seq<DirEntry>, p: Path)
    ensures p in FilterEntries(dir, es) <==>
      exists i :: 0 <= i < |es| && es[i].Entry? && IsJpegName(es[i].name) && p == dir + [es[i].name]
  {
    if es != [] {
      FilterMembership(dir, es[1..], p);
      if p in FilterEntries(dir, es[1..]) {
        var i :| 0 <= i < |es[1..]| && es[1..][i].Entry? && IsJpegName(es[1..][i].name) && p == dir + [es[1..][i].name];
        assert es[i + 1] == es[1..][i];
      }
      if exists i :: 0 <= i < |es| && es[i].Entry? && IsJpegName(es[i].name) && p == dir + [es[i].name] {
        var i :| 0 <= i < |es| && es[i].Entry? && IsJpegName(es[i].name) && p == dir + [es[i].name];
        if i > 0 {
          assert es[1..][i - 1] == es[i];
        }
      }
    }
  }

  /** A listing whose readable entries are all non-JPEG yields no files. */
  lemma NoJpegNoFiles(dir: Path, es: seq<DirEntry>)
    requires forall i :: 0 <= i < |es| && es[i].Entry? ==> !IsJpegName(es[i].name)
    ensures FilterEntries(dir, es) == []
  {
    if FilterEntries(dir, es) != [] {
      FilterMembership(dir, es, FilterEntries(dir, es)[0]);
    }
  }

  /** A directory never lists two entries under one name. */
  ghost predicate DistinctNames(es: seq<DirEntry>)
  {
    forall i, j :: 0 <= i < j < |es| && es[i].Entry? && es[j].Entry? ==> es[i].name != es[j].name
  }

  ghost predicate Distinct<T>(s: seq<T>)
  {
    forall i, j :: 0 <= i < j < |s| ==> s[i] != s[j]
  }

  /** Entries with distinct names give distinct paths. */
  lemma {:induction false} FilterDistinct(dir: Path, es: seq<DirEntry>)
    requires DistinctNames(es)
    ensures Distinct(FilterEntries(dir, es))
  {
    if es != [] {
      var rest := FilterEntries(dir, es[1..]);
      assert DistinctNames(es[1..]) by {
        forall i, j | 0 <= i < j < |es[1..]| && es[1..][i].Entry? && es[1..][j].Entry?
          ensures es[1..][i].name != es[1..][j].name
        {
          assert es[1..][i] == es[i + 1] && es[1..][j] == es[j + 1];
        }
      }
      FilterDistinct(dir, es[1..]);
      if es[0].Entry? && IsJpegName(es[0].name) {
        var p := dir + [es[0].name];
        if p in rest {
          FilterMembership(dir, es[1..], p);
          assert false;
        }
        assert FilterEntries(dir, es) == [p] + rest;
      }
    }
  }

  /** Sample extensions: `jpg` and `jpeg` in any case pass, others do not. */
  lemma ExtensionExamples()
    ensures IsJpegExtension("JPG") && IsJpegExtension("JpEg") && IsJpegExtension("jpeg")
    ensures !IsJpegExtension("png") && !IsJpegExtension("jpgx") && !IsJpegExtension("")
  {
    assert Lower("JPG") == "jpg";
    assert Lower("JpEg") == "jpeg";
    assert Lower("jpeg") == "jpeg";
    assert Lower("png")[0] == 'p';
    assert Lower("jpgx")[3] == 'x';
  }

  /** Names such as `.jpg`, and names without a dot, are never selected. */
  lemma NoExtensionNotSelected(ext: string, bare: string)
    requires forall j :: 0 <= j < |ext| ==> ext[j] != '.'
    requires forall j :: 0 <= j < |bare| ==> bare[j] != '.'
    ensures !IsJpegName("." + ext) && !IsJpegName(bare)
  {
    assert "." + ext == "" + "." + ext;
    LastDotOfSplit("", ext);
  }

  /** A three-entry listing: the JPEG is kept, a non-JPEG and an unreadable entry are dropped. */
  lemma {:induction false} ScanExample(dir: Path, jpeg: string, other: string)
    requires IsJpegName(jpeg) && !IsJpegName(other)
    ensures GetFilePaths(dir, Some([Entry(other), Entry(jpeg), Unreadable])) == [dir + [jpeg]]
    ensures GetFilePaths(dir, None) == []
  {
    var es := [Entry(other), Entry(jpeg), Unreadable];
    assert es[1..] == [Entry(jpeg), Unreadable];
    assert es[1..][1..] == [Unreadable];
    assert es[1..][1..][1..] == [];
    assert FilterEntries(dir, es[1..][1..]) == [];
    assert FilterEntries(dir, es[1..]) == [dir + [jpeg]];
  }
}
