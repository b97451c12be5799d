/**
 * What the action's entry point (src/main.ts) decides from the annotations of
 * the JSON pipeline: the check run's conclusion and the annotations it posts.
 */
module CheckRun {
  import opened ComputeCoverage

  /** GitHub accepts at most this many annotations per check-run request. */
  const MaxPostedAnnotations: nat := 50

  datatype Conclusion = Success | Failure

  /** `annotations.length === 0`: the run succeeds exactly when nothing is annotated. */
  function ConclusionOf(annotations: seq<Annotation>): (c: Conclusion)
    ensures c == Success <==> |annotations| == 0
  {
    if |annotations| == 0 then Success else Failure
  }

  /** `annotations.slice(0, 50)`: the first annotations, at most 50 of them, in order. */
  function PostedAnnotations(annotations: seq<Annotation>): (posted: seq<Annotation>)
    ensures |posted| == if |annotations| < MaxPostedAnnotations then |annotations| else MaxPostedAnnotations
    ensures posted == annotations[..|posted|]
  {
    if |annotations| <= MaxPostedAnnotations then annotations else annotations[..MaxPostedAnnotations]
  }

  /**
   * Through the JSON pipeline, the run succeeds exactly when no parsed source
   * file has a missed line: every file with one contributes at least its drop
   * annotation.
   */
  lemma SuccessIffNoMissedLines(files: seq<FileCoverage>)
    ensures ConclusionOf(CoverageAnnotations(files)) == Success <==>
            forall f :: f in files ==> !HasMissedLines(f)
  {
    var contributing := FilesWithMissedLines(files);
    if |contributing| > 0 {
      var n := |contributing|;
      assert contributing[n - 1] in contributing;
      FileAnnotationsShape(contributing[n - 1]);
      assert |Concat(contributing)| >= |FileAnnotations(contributing[n - 1])|;
    }
  }
}
