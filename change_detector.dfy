/**
 * `ci_engine/change_detector.py`: the list of changed files, found by a
 * three-tier fallback over git. Each git invocation is an input: either it
 * raised, or it completed and its standard output is given already split
 * into lines. A non-zero exit status does not raise, so a completed
 * invocation with empty output stands for "git ran and printed nothing".
 */
module ChangeDetector {
  import opened Wrappers
  import opened Sequences
  import opened Strings

  datatype Invocation = Raised | Completed(lines: seq<string>)

  /** The `git diff`, `git show` and `git ls-files` invocations, in the order they may be made. */
  datatype GitOutputs = GitOutputs(diff: Invocation, show: Invocation, lsFiles: Invocation)

  /** The one failure that escapes: the tier-3 `git ls-files` invocation raised. */
  datatype DetectionFailure = ListingRaised

  /** The lines of the last commit's file list kept by tier 2: those ending in ".py", in order. */
  function PythonFiles(lines: seq<string>): (r: seq<string>)
    ensures IsSubsequence(r, lines)
    ensures forall f :: f in r <==> f in lines && EndsWith(f, ".py")
    ensures forall f :: multiset(r)[f] == if EndsWith(f, ".py") then multiset(lines)[f] else 0
  {
    if lines == [] then []
    else
      var rest := PythonFiles(lines[1..]);
      assert lines == [lines[0]] + lines[1..];
      if EndsWith(lines[0], ".py") then [lines[0]] + rest else rest
  }

  /** Tier 3: every tracked file, unfiltered; a raise here propagates. */
  function TrackedFiles(lsFiles: Invocation): (r: Result<seq<string>, DetectionFailure>)
    ensures r.Failure? <==> lsFiles.Raised?
    ensures lsFiles.Completed? ==> r.value == lsFiles.lines
  {
    match lsFiles
    case Raised => Failure(ListingRaised)
    case Completed(lines) => Success(lines)
  }

  /** `get_changed_files()` */
  function GetChangedFiles(git: GitOutputs): (r: Result<seq<string>, DetectionFailure>)
    // Tier 1: a non-empty diff is returned verbatim.
    ensures git.diff.Completed? && git.diff.lines != [] ==> r == Success(git.diff.lines)
    // Tier 2: an empty diff falls back to the ".py" lines of the last commit.
    ensures git.diff.Completed? && git.diff.lines == [] && git.show.Completed? ==>
              r.Success? && IsSubsequence(r.value, git.show.lines) &&
              (forall f :: f in r.value <==> f in git.show.lines && EndsWith(f, ".py")) &&
              forall f :: multiset(r.value)[f] == if EndsWith(f, ".py") then multiset(git.show.lines)[f] else 0
    // Tier 3: a raise in either earlier invocation falls back to the tracked files.
    ensures git.diff.Raised? || (git.diff.lines == [] && git.show.Raised?) ==>
              (r.Failure? <==> git.lsFiles.Raised?) &&
              (git.lsFiles.Completed? ==> r == Success(git.lsFiles.lines))
  {
    match git.diff
    case Raised => TrackedFiles(git.lsFiles)
    case Completed(diffLines) =>
      if diffLines != [] then Success(diffLines)
      else
        match git.show
        case Raised => TrackedFiles(git.lsFiles)
        case Completed(showLines) => Success(PythonFiles(showLines))
  }

  /** Later tiers are consulted only when the earlier ones give way: a non-empty diff decides alone. */
  lemma DiffDecidesAlone(git: GitOutputs, show: Invocation, lsFiles: Invocation)
    requires git.diff.Completed? && git.diff.lines != []
    ensures GetChangedFiles(git) == GetChangedFiles(GitOutputs(git.diff, show, lsFiles))
  {
  }

  /** The only way to get a failure is for the last tier to be reached and to raise. */
  lemma FailureOnlyFromListing(git: GitOutputs)
    requires GetChangedFiles(git).Failure?
    ensures git.lsFiles.Raised?
    ensures git.diff.Raised? || (git.diff.lines == [] && git.show.Raised?)
  {
  }
}
