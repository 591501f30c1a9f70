/** `main`'s batch over a directory: scan it, then pair every selected input
    with its output path inside `resized`. */
module Batch {
  import opened Base
  import opened Paths
  import opened Scan

  /** One call of `resize`: the input file and the path its result is written to. */
  datatype Job = Job(input: Path, output: Path)

  /** Every path the scanner returns has a file name, so `main`'s unwrap never fails. */
  lemma ScannedPathsHaveNames(dir: Path, listing: Option<seq<DirEntry>>, k: nat)
    requires k < |GetFilePaths(dir, listing)|
    ensures FileName(GetFilePaths(dir, listing)[k]).Some?
  {
  }

  /** The jobs `main` runs, in the scanner's order. */
  function Plan(dir: Path, listing: Option<seq<DirEntry>>): (jobs: seq<Job>)
    ensures |jobs| == |GetFilePaths(dir, listing)|
    ensures forall k :: 0 <= k < |jobs| ==>
      jobs[k].input == GetFilePaths(dir, listing)[k] &&
      FileName(jobs[k].output) == FileName(jobs[k].input) &&
      jobs[k].output == ResizedDir(dir) + [FileName(jobs[k].input).value]
  {
    var inputs := GetFilePaths(dir, listing);
    seq(|inputs|, k requires 0 <= k < |inputs| => Job(inputs[k], OutputPath(ResizedDir(dir), inputs[k])))
  }

  /** A directory's distinct entry names give pairwise distinct output paths,
      so no output overwrites another within one run; the outputs are exactly as
      many as the selected inputs. */
  lemma {:induction false} PlanOutputsDistinct(dir: Path, es: seq<DirEntry>)
    requires DistinctNames(es)
    ensures var jobs := Plan(dir, Some(es));
      forall i, j :: 0 <= i < j < |jobs| ==> jobs[i].output != jobs[j].output
  {
    var jobs := Plan(dir, Some(es));
    var inputs := GetFilePaths(dir, Some(es));
    FilterDistinct(dir, es);
    forall i, j | 0 <= i < j < |jobs| ensures jobs[i].output != jobs[j].output {
      assert inputs[i] != inputs[j];
      assert inputs[i][..|dir|] == dir == inputs[j][..|dir|];
      assert inputs[i] == dir + [inputs[i][|dir|]];
      assert inputs[j] == dir + [inputs[j][|dir|]];
      OutputPathInjective(ResizedDir(dir), inputs[i], inputs[j]);
    }
  }

  /** Every output lies directly in `<dir>/resized`, and the input it came from
      lies directly in `<dir>`. */
  lemma PlanLocations(dir: Path, listing: Option<seq<DirEntry>>, k: nat)
    requires k < |Plan(dir, listing)|
    ensures var job := Plan(dir, listing)[k];
      |job.input| == |dir| + 1 && job.input[..|dir|] == dir &&
      |job.output| == |dir| + 2 && job.output[..|dir| + 1] == ResizedDir(dir)
  {
  }
}
