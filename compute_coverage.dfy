/**
 * The JSON ("simplecov-style") pipeline, `computeCoverage` (src/computeCoverage.ts):
 * from the parsed list of source files to the list of annotations.
 *
 * A coverage marker is `null` (a line that is not executable) or an execution
 * count; a count of `0` is a missed line. Marker `i` describes line `i + 1`.
 */
module ComputeCoverage {
  import Action
  import opened Ratio
  import opened Seqs

  datatype Marker = Null | Count(n: nat)

  datatype FileCoverage = FileCoverage(name: string, source: string, coverage: seq<Marker>)

  /** The message of an annotation: the fixed "Missed coverage" text, or the drop message with its percentage. */
  datatype Message = MissedCoverage | CoverageDroppedTo(percent: real)

  /** The annotation record of this pipeline (it has no `coverage` field). */
  datatype Annotation = Annotation(path: string, startLine: nat, endLine: nat, level: Action.Level, message: Message)

  /** An inclusive range of 1-indexed line numbers. */
  datatype Range = Range(start: nat, end: nat)

  /** `coverageValue === 0` */
  predicate IsZero(m: Marker) {
    m == Count(0)
  }

  /** `coverage.filter(v => v === 0).length` */
  function CountZeros(coverage: seq<Marker>): (r: nat)
    ensures r <= |coverage|
    ensures r == 0 <==> forall i :: 0 <= i < |coverage| ==> !IsZero(coverage[i])
    decreases |coverage|
  {
    if coverage == [] then 0
    else CountZeros(coverage[..|coverage| - 1]) + (if IsZero(coverage[|coverage| - 1]) then 1 else 0)
  }

  /** `coverage.filter(v => v === null).length` */
  function CountNulls(coverage: seq<Marker>): (r: nat)
    ensures r <= |coverage|
    ensures r == 0 <==> forall i :: 0 <= i < |coverage| ==> coverage[i] != Null
    decreases |coverage|
  {
    if coverage == [] then 0
    else CountNulls(coverage[..|coverage| - 1]) + (if coverage[|coverage| - 1] == Null then 1 else 0)
  }

  /** Zeros and nulls are distinct markers, so together they never exceed the line count. */
  lemma {:induction false} ZerosAndNullsBounded(coverage: seq<Marker>)
    ensures CountZeros(coverage) + CountNulls(coverage) <= |coverage|
    decreases |coverage|
  {
    if coverage != [] {
      ZerosAndNullsBounded(coverage[..|coverage| - 1]);
    }
  }

  /**
   * The file's percentage: `missed` zeros over a denominator of `total` nulls,
   * and 100 when there are no nulls. It never exceeds 100, is exactly 100 when
   * there are no nulls or no zeros, and is negative when zeros outnumber nulls.
   */
  function CoveragePercent(coverage: seq<Marker>): (r: real)
    ensures r <= 100.0
    ensures r == 100.0 <==> CountNulls(coverage) == 0 || CountZeros(coverage) == 0
    ensures r < 0.0 <==> CountNulls(coverage) > 0 && CountZeros(coverage) > CountNulls(coverage)
  {
    var missed := CountZeros(coverage);
    var total := CountNulls(coverage);
    var ratio := if total == 0 then 1.0 else (total - missed) as real / total as real;
    assert total > 0 ==> ratio <= 1.0 && (ratio == 1.0 <==> missed == 0) && (ratio < 0.0 <==> missed > total) by {
      if total > 0 { QuotientFacts(total - missed, total); }
    }
    ratio * 100.0
  }

  /** Zeros outnumbering nulls drive the percentage below zero: `[0, 0, null]` gives -100. */
  lemma NegativePercentExample()
    ensures CoveragePercent([Count(0), Count(0), Null]) == -100.0
  {
    var c := [Count(0), Count(0), Null];
    assert c[..2] == [Count(0), Count(0)] && c[..2][..1] == [Count(0)] && c[..2][..1][..0] == [];
    assert CountZeros(c) == 2;
    assert CountNulls(c) == 1;
  }

  /** The file filter's test: at least one marker is `0`. */
  predicate HasMissedLines(f: FileCoverage) {
    CountZeros(f.coverage) > 0
  }

  /** `source_files.filter(...)`: the files with a missed line, in input order. */
  function FilesWithMissedLines(files: seq<FileCoverage>): (r: seq<FileCoverage>)
    ensures forall f :: f in r <==> f in files && HasMissedLines(f)
    ensures |r| <= |files|
    decreases |files|
  {
    if files == [] then []
    else
      var init := FilesWithMissedLines(files[..|files| - 1]);
      var last := files[|files| - 1];
      assert files == files[..|files| - 1] + [last];
      if HasMissedLines(last) then init + [last] else init
  }

  /** Filtering commutes with concatenation, so contributing files keep their input order. */
  lemma {:induction false} FilesWithMissedLinesAppend(a: seq<FileCoverage>, b: seq<FileCoverage>)
    ensures FilesWithMissedLines(a + b) == FilesWithMissedLines(a) + FilesWithMissedLines(b)
    decreases |b|
  {
    if b == [] {
      assert a + b == a;
    } else {
      var b' := b[..|b| - 1];
      assert (a + b)[..|a + b| - 1] == a + b';
      FilesWithMissedLinesAppend(a, b');
    }
  }

  // ---------------------------------------------------------------------
  // Missed ranges
  // ---------------------------------------------------------------------

  /**
   * The maximal runs of `0` markers as 1-indexed line ranges, defined line by
   * line: a missed line extends the last range when the line before it was
   * missed too, and opens a new range otherwise.
   */
  function MissedRanges(coverage: seq<Marker>): (rs: seq<Range>)
    ensures |coverage| > 0 && IsZero(coverage[|coverage| - 1]) ==> |rs| > 0
    ensures |rs| > 0 ==> |coverage| > 0 && rs[|rs| - 1].end <= |coverage| &&
                         (rs[|rs| - 1].end == |coverage| <==> IsZero(coverage[|coverage| - 1]))
    decreases |coverage|
  {
    if coverage == [] then []
    else
      var n := |coverage|;
      var init := MissedRanges(coverage[..n - 1]);
      if !IsZero(coverage[n - 1]) then init
      else if n >= 2 && IsZero(coverage[n - 2]) then
        assert coverage[..n - 1][n - 2] == coverage[n - 2];
        init[..|init| - 1] + [Range(init[|init| - 1].start, n)]
      else init + [Range(n, n)]
  }

  /** Range `r` lies within the file and covers only `0` markers. */
  predicate RangeOfZeros(coverage: seq<Marker>, r: Range) {
    1 <= r.start <= r.end <= |coverage| &&
    forall k :: r.start - 1 <= k < r.end ==> IsZero(coverage[k])
  }

  /** Range `r` cannot be extended: the markers just outside it are not `0`. */
  predicate Maximal(coverage: seq<Marker>, r: Range)
    requires 1 <= r.start <= r.end <= |coverage|
  {
    (r.start >= 2 ==> !IsZero(coverage[r.start - 2])) &&
    (r.end < |coverage| ==> !IsZero(coverage[r.end]))
  }

  /** Every range starts no later than it ends. */
  predicate Ordered(rs: seq<Range>) {
    forall i :: 0 <= i < |rs| ==> rs[i].start <= rs[i].end
  }

  /** Ranges ascend and never touch: a line that is not missed separates any two. */
  predicate Separated(rs: seq<Range>) {
    forall i, j :: 0 <= i < j < |rs| ==> rs[i].end + 1 < rs[j].start
  }

  /** Line `line` lies in range `r`. */
  predicate InRange(line: int, r: Range) {
    r.start <= line <= r.end
  }

  /** Every missed line of `coverage` lies in some range of `rs`. */
  predicate CoversZeros(coverage: seq<Marker>, rs: seq<Range>) {
    forall k :: 0 <= k < |coverage| && IsZero(coverage[k]) ==> exists i :: 0 <= i < |rs| && InRange(k + 1, rs[i])
  }

  /** Every range of `rs` is a run of `0` markers of `coverage`. */
  predicate AllRangesOfZeros(coverage: seq<Marker>, rs: seq<Range>) {
    forall i :: 0 <= i < |rs| ==> RangeOfZeros(coverage, rs[i])
  }

  /** Every range of `rs` is a run of `0` markers of `coverage` that cannot be extended. */
  predicate AllMaximal(coverage: seq<Marker>, rs: seq<Range>) {
    forall i :: 0 <= i < |rs| ==> RangeOfZeros(coverage, rs[i]) && Maximal(coverage, rs[i])
  }

  /** `rs` is exactly the list of maximal runs of missed lines of `coverage`. */
  predicate MaximalZeroRuns(coverage: seq<Marker>, rs: seq<Range>) {
    AllMaximal(coverage, rs) &&
    Separated(rs) &&
    CoversZeros(coverage, rs)
  }

  /**
   * How the last marker turns the ranges `init` of the markers before it into
   * `rs`: unchanged, the last range extended to it, or a new one-line range.
   */
  predicate Step(coverage: seq<Marker>, init: seq<Range>, rs: seq<Range>)
    requires |coverage| > 0
  {
    var n := |coverage|;
    if !IsZero(coverage[n - 1]) then rs == init
    else if n >= 2 && IsZero(coverage[n - 2]) then
      |init| > 0 && init[|init| - 1].end == n - 1 &&
      rs == init[..|init| - 1] + [Range(init[|init| - 1].start, n)]
    else rs == init + [Range(n, n)]
  }

  /** The last range of the markers before the last one ends at line `n - 1` exactly when marker `n - 2` is `0`. */
  predicate LastEnd(coverage: seq<Marker>, init: seq<Range>)
    requires |coverage| > 0
  {
    var n := |coverage|;
    (n == 1 ==> init == []) &&
    (n >= 2 && IsZero(coverage[n - 2]) ==> |init| > 0) &&
    (|init| > 0 ==> n >= 2 && init[|init| - 1].end <= n - 1 &&
                    (init[|init| - 1].end == n - 1 <==> IsZero(coverage[n - 2])))
  }

  lemma MissedRangesStep(coverage: seq<Marker>)
    requires |coverage| > 0
    ensures Step(coverage, MissedRanges(coverage[..|coverage| - 1]), MissedRanges(coverage))
    ensures LastEnd(coverage, MissedRanges(coverage[..|coverage| - 1]))
  {
    var n := |coverage|;
    if n >= 2 {
      assert coverage[..n - 1][n - 2] == coverage[n - 2];
    }
  }

  /** A run of zeros of the file without its last line stays one when that line is added. */
  lemma RangeOfZerosGrows(coverage: seq<Marker>, r: Range)
    requires |coverage| > 0 && RangeOfZeros(coverage[..|coverage| - 1], r)
    ensures RangeOfZeros(coverage, r)
  {
    var prefix := coverage[..|coverage| - 1];
    forall k | r.start - 1 <= k < r.end ensures IsZero(coverage[k]) {
      assert prefix[k] == coverage[k];
    }
  }

  lemma AreZerosStep(coverage: seq<Marker>, init: seq<Range>, rs: seq<Range>)
    requires |coverage| > 0 && Step(coverage, init, rs)
    requires AllRangesOfZeros(coverage[..|coverage| - 1], init)
    ensures AllRangesOfZeros(coverage, rs)
  {
    var n := |coverage|;
    forall i | 0 <= i < |init| ensures RangeOfZeros(coverage, init[i]) {
      RangeOfZerosGrows(coverage, init[i]);
    }
    if IsZero(coverage[n - 1]) {
      if n >= 2 && IsZero(coverage[n - 2]) {
        var m := |init| - 1;
        forall i | 0 <= i < |rs| ensures RangeOfZeros(coverage, rs[i]) {
          if i < m { assert rs[i] == init[i]; }
        }
      } else {
        forall i | 0 <= i < |rs| ensures RangeOfZeros(coverage, rs[i]) {
          if i < |init| { assert rs[i] == init[i]; }
        }
      }
    }
  }

  /** Each range lies within the file and covers only `0` markers. */
  lemma {:induction false} MissedRangesAreZeros(coverage: seq<Marker>)
    ensures AllRangesOfZeros(coverage, MissedRanges(coverage))
    decreases |coverage|
  {
    if coverage != [] {
      var prefix := coverage[..|coverage| - 1];
      MissedRangesAreZeros(prefix);
      MissedRangesStep(coverage);
      AreZerosStep(coverage, MissedRanges(prefix), MissedRanges(coverage));
    }
  }

  lemma SeparatedStep(coverage: seq<Marker>, init: seq<Range>, rs: seq<Range>)
    requires |coverage| > 0 && Step(coverage, init, rs) && LastEnd(coverage, init)
    requires Ordered(init) && Separated(init)
    ensures Ordered(rs) && Separated(rs)
  {
    var n := |coverage|;
    if IsZero(coverage[n - 1]) {
      if n >= 2 && IsZero(coverage[n - 2]) {
        var m := |init| - 1;
        forall i | 0 <= i < |rs| ensures rs[i].start <= rs[i].end {
          if i < m { assert rs[i] == init[i]; }
        }
        forall i, j | 0 <= i < j < |rs| ensures rs[i].end + 1 < rs[j].start {
          assert rs[i] == init[i];
          if j < m { assert rs[j] == init[j]; } else { assert rs[j].start == init[m].start; }
        }
      } else {
        forall i | 0 <= i < |rs| ensures rs[i].start <= rs[i].end {
          if i < |init| { assert rs[i] == init[i]; }
        }
        forall i, j | 0 <= i < j < |rs| ensures rs[i].end + 1 < rs[j].start {
          assert rs[i] == init[i];
          if j < |init| {
            assert rs[j] == init[j];
          } else if i < |init| - 1 {
            assert init[i].end + 1 < init[|init| - 1].start;
          }
        }
      }
    }
  }

  /** Ranges start no later than they end, ascend, and never touch. */
  lemma {:induction false} MissedRangesSeparated(coverage: seq<Marker>)
    ensures Ordered(MissedRanges(coverage)) && Separated(MissedRanges(coverage))
    decreases |coverage|
  {
    if coverage != [] {
      var prefix := coverage[..|coverage| - 1];
      MissedRangesSeparated(prefix);
      MissedRangesStep(coverage);
      SeparatedStep(coverage, MissedRanges(prefix), MissedRanges(coverage));
    }
  }

  /** A maximal run stays maximal when the added last line does not touch it. */
  lemma MaximalGrows(coverage: seq<Marker>, r: Range)
    requires |coverage| > 0
    requires RangeOfZeros(coverage[..|coverage| - 1], r) && Maximal(coverage[..|coverage| - 1], r)
    requires r.end < |coverage| - 1 || !IsZero(coverage[|coverage| - 1])
    ensures RangeOfZeros(coverage, r) && Maximal(coverage, r)
  {
    var prefix := coverage[..|coverage| - 1];
    RangeOfZerosGrows(coverage, r);
    if r.start >= 2 { assert prefix[r.start - 2] == coverage[r.start - 2]; }
    if r.end < |coverage| - 1 { assert prefix[r.end] == coverage[r.end]; }
  }

  /** The range that the last line extends stays maximal. */
  lemma MaximalExtended(coverage: seq<Marker>, r: Range)
    requires |coverage| >= 2 && IsZero(coverage[|coverage| - 1])
    requires r.end == |coverage| - 1
    requires RangeOfZeros(coverage[..|coverage| - 1], r) && Maximal(coverage[..|coverage| - 1], r)
    ensures RangeOfZeros(coverage, Range(r.start, |coverage|)) && Maximal(coverage, Range(r.start, |coverage|))
  {
    var n := |coverage|;
    var prefix := coverage[..n - 1];
    RangeOfZerosGrows(coverage, r);
    if r.start >= 2 { assert prefix[r.start - 2] == coverage[r.start - 2]; }
  }

  /** A one-line range at a `0` marker whose predecessor is not `0` is maximal. */
  lemma MaximalOpened(coverage: seq<Marker>)
    requires |coverage| > 0 && IsZero(coverage[|coverage| - 1])
    requires |coverage| == 1 || !IsZero(coverage[|coverage| - 2])
    ensures RangeOfZeros(coverage, Range(|coverage|, |coverage|)) && Maximal(coverage, Range(|coverage|, |coverage|))
  {
  }

  lemma MaximalStep(coverage: seq<Marker>, init: seq<Range>, rs: seq<Range>)
    requires |coverage| > 0 && Step(coverage, init, rs) && LastEnd(coverage, init)
    requires Ordered(init) && Separated(init) && AllMaximal(coverage[..|coverage| - 1], init)
    ensures AllMaximal(coverage, rs)
  {
    var n := |coverage|;
    var extend := IsZero(coverage[n - 1]) && n >= 2 && IsZero(coverage[n - 2]);
    var m := |init| - 1;
    forall i | 0 <= i < |init| && !(extend && i == m)
      ensures RangeOfZeros(coverage, init[i]) && Maximal(coverage, init[i])
    {
      if i < m { assert init[i].end + 1 < init[m].start; }
      MaximalGrows(coverage, init[i]);
    }
    if extend {
      MaximalExtended(coverage, init[m]);
      forall i | 0 <= i < |rs| ensures RangeOfZeros(coverage, rs[i]) && Maximal(coverage, rs[i]) {
        if i < m { assert rs[i] == init[i]; }
      }
    } else if IsZero(coverage[n - 1]) {
      MaximalOpened(coverage);
      forall i | 0 <= i < |rs| ensures RangeOfZeros(coverage, rs[i]) && Maximal(coverage, rs[i]) {
        if i < |init| { assert rs[i] == init[i]; }
      }
    }
  }

  /** No range can be extended by one line on either side. */
  lemma {:induction false} MissedRangesMaximal(coverage: seq<Marker>)
    ensures AllMaximal(coverage, MissedRanges(coverage))
    decreases |coverage|
  {
    if coverage != [] {
      var prefix := coverage[..|coverage| - 1];
      MissedRangesMaximal(prefix);
      MissedRangesSeparated(prefix);
      MissedRangesStep(coverage);
      MaximalStep(coverage, MissedRanges(prefix), MissedRanges(coverage));
    }
  }

  lemma CoverStep(coverage: seq<Marker>, init: seq<Range>, rs: seq<Range>)
    requires |coverage| > 0 && Step(coverage, init, rs)
    requires CoversZeros(coverage[..|coverage| - 1], init) && Ordered(rs)
    ensures CoversZeros(coverage, rs)
  {
    var n := |coverage|;
    var prefix := coverage[..n - 1];
    forall k | 0 <= k < n && IsZero(coverage[k]) ensures exists i :: 0 <= i < |rs| && InRange(k + 1, rs[i]) {
      if k < n - 1 {
        assert prefix[k] == coverage[k];
        var i :| 0 <= i < |init| && InRange(k + 1, init[i]);
        if IsZero(coverage[n - 1]) && n >= 2 && IsZero(coverage[n - 2]) {
          assert InRange(k + 1, rs[i]);
        } else {
          assert rs[i] == init[i];
        }
      } else {
        assert InRange(k + 1, rs[|rs| - 1]);
      }
    }
  }

  /** Every `0` marker lies in some range. */
  lemma {:induction false} MissedRangesCoverZeros(coverage: seq<Marker>)
    ensures CoversZeros(coverage, MissedRanges(coverage))
    decreases |coverage|
  {
    if coverage != [] {
      var prefix := coverage[..|coverage| - 1];
      MissedRangesCoverZeros(prefix);
      MissedRangesSeparated(coverage);
      MissedRangesStep(coverage);
      CoverStep(coverage, MissedRanges(prefix), MissedRanges(coverage));
    }
  }

  /**
   * MissedRanges yields exactly the maximal runs of zeros: each range is a run
   * of `0` markers that cannot be extended, the ranges ascend without touching,
   * every `0` marker is in one of them, and in no more than one.
   */
  lemma MissedRangesAreMaximalRuns(coverage: seq<Marker>)
    ensures MaximalZeroRuns(coverage, MissedRanges(coverage))
    ensures var rs := MissedRanges(coverage);
            forall i, j, line :: 0 <= i < j < |rs| && InRange(line, rs[i]) ==> !InRange(line, rs[j])
  {
    MissedRangesMaximal(coverage);
    MissedRangesSeparated(coverage);
    MissedRangesCoverZeros(coverage);
  }

  /** The number of lines the ranges cover. */
  function CoveredLines(rs: seq<Range>): int
    decreases |rs|
  {
    if rs == [] then 0 else CoveredLines(rs[..|rs| - 1]) + (rs[|rs| - 1].end - rs[|rs| - 1].start + 1)
  }

  /** The ranges cover exactly as many lines as there are `0` markers: they partition the zeros. */
  lemma CountStep(coverage: seq<Marker>, init: seq<Range>, rs: seq<Range>)
    requires |coverage| > 0 && Step(coverage, init, rs)
    ensures CoveredLines(rs) == CoveredLines(init) + if IsZero(coverage[|coverage| - 1]) then 1 else 0
  {
    var n := |coverage|;
    if IsZero(coverage[n - 1]) {
      if n >= 2 && IsZero(coverage[n - 2]) {
        var m := |init| - 1;
        assert rs[..|rs| - 1] == init[..m];
      } else {
        assert rs[..|rs| - 1] == init;
      }
    }
  }

  /** The ranges cover exactly as many lines as there are `0` markers: they partition the zeros. */
  lemma {:induction false} MissedRangesCountZeros(coverage: seq<Marker>)
    ensures CoveredLines(MissedRanges(coverage)) == CountZeros(coverage)
    decreases |coverage|
  {
    if coverage != [] {
      var prefix := coverage[..|coverage| - 1];
      MissedRangesCountZeros(prefix);
      MissedRangesStep(coverage);
      CountStep(coverage, MissedRanges(prefix), MissedRanges(coverage));
    }
  }

  // ---------------------------------------------------------------------
  // Annotations
  // ---------------------------------------------------------------------

  function RangeAnnotation(path: string, r: Range): Annotation {
    Annotation(path, r.start, r.end, Action.Failure, MissedCoverage)
  }

  function RangeAnnotations(path: string, rs: seq<Range>): (anns: seq<Annotation>)
    ensures |anns| == |rs|
    ensures forall i :: 0 <= i < |rs| ==> anns[i] == RangeAnnotation(path, rs[i])
  {
    seq(|rs|, i requires 0 <= i < |rs| => RangeAnnotation(path, rs[i]))
  }

  /** The annotations of one contributing file: one per missed range, in order, then the drop annotation on line 1. */
  function FileAnnotations(f: FileCoverage): seq<Annotation> {
    RangeAnnotations(f.name, MissedRanges(f.coverage)) +
      [Annotation(f.name, 1, 1, Action.Failure, CoverageDroppedTo(CoveragePercent(f.coverage)))]
  }

  /**
   * A contributing file yields one annotation per maximal missed range and one
   * more; all are failures on the file's path; the range annotations are runs
   * of `0` markers within the file that cannot be extended; the last one is the
   * drop annotation on line 1 with the file's percentage.
   */
  lemma FileAnnotationsShape(f: FileCoverage)
    ensures var anns := FileAnnotations(f);
            |anns| == |MissedRanges(f.coverage)| + 1 &&
            anns[|anns| - 1] == Annotation(f.name, 1, 1, Action.Failure, CoverageDroppedTo(CoveragePercent(f.coverage))) &&
            (forall i :: 0 <= i < |anns| ==> anns[i].path == f.name && anns[i].level == Action.Failure) &&
            forall i :: 0 <= i < |anns| - 1 ==>
              anns[i].message == MissedCoverage &&
              RangeOfZeros(f.coverage, Range(anns[i].startLine, anns[i].endLine)) &&
              Maximal(f.coverage, Range(anns[i].startLine, anns[i].endLine))
  {
    MissedRangesMaximal(f.coverage);
    var rs := MissedRanges(f.coverage);
    var anns := FileAnnotations(f);
    forall i | 0 <= i < |anns| - 1
      ensures RangeOfZeros(f.coverage, Range(anns[i].startLine, anns[i].endLine)) &&
              Maximal(f.coverage, Range(anns[i].startLine, anns[i].endLine))
    {
      assert Range(anns[i].startLine, anns[i].endLine) == rs[i];
    }
  }

  /** The annotations of the given files, file after file. */
  function Concat(files: seq<FileCoverage>): seq<Annotation>
    decreases |files|
  {
    if files == [] then [] else Concat(files[..|files| - 1]) + FileAnnotations(files[|files| - 1])
  }

  /** What `computeCoverage` returns for the parsed `source_files`. */
  function CoverageAnnotations(files: seq<FileCoverage>): seq<Annotation> {
    Concat(FilesWithMissedLines(files))
  }

  /** `Concat` of a prefix one file longer. */
  lemma ConcatSnoc(files: seq<FileCoverage>, i: nat)
    requires i < |files|
    ensures Concat(files[..i + 1]) == Concat(files[..i]) + FileAnnotations(files[i])
  {
    assert files[..i + 1][..i] == files[..i];
  }

  lemma {:induction false} ConcatAppend(a: seq<FileCoverage>, b: seq<FileCoverage>)
    ensures Concat(a + b) == Concat(a) + Concat(b)
    decreases |b|
  {
    if b == [] {
      assert a + b == a;
    } else {
      var b' := b[..|b| - 1];
      var ab := a + b;
      assert ab[..|ab| - 1] == a + b';
      assert ab[|ab| - 1] == b[|b| - 1];
      var last := FileAnnotations(b[|b| - 1]);
      assert Concat(ab) == Concat(a + b') + last;
      assert Concat(b) == Concat(b') + last;
      ConcatAppend(a, b');
      ConcatAssociative(Concat(a), Concat(b'), last);
    }
  }

  /**
   * The result is built file by file in input order: the annotations of
   * `a + b` are those of `a` followed by those of `b`, a file without missed
   * lines contributes nothing, and a file with one contributes its own list.
   */
  lemma CoverageAnnotationsCompose(a: seq<FileCoverage>, b: seq<FileCoverage>, f: FileCoverage)
    ensures CoverageAnnotations(a + b) == CoverageAnnotations(a) + CoverageAnnotations(b)
    ensures CoverageAnnotations([f]) == if HasMissedLines(f) then FileAnnotations(f) else []
  {
    FilesWithMissedLinesAppend(a, b);
    ConcatAppend(FilesWithMissedLines(a), FilesWithMissedLines(b));
    assert FilesWithMissedLines([f]) == if HasMissedLines(f) then [f] else [] by {
      assert [f][..0] == [];
    }
    if HasMissedLines(f) {
      assert Concat([f]) == Concat([]) + FileAnnotations(f) by { assert [f][..0] == []; }
    }
  }

  /** A line that is not missed leaves the ranges of the lines before it unchanged. */
  lemma SkipLine(coverage: seq<Marker>, i: nat)
    requires i < |coverage| && !IsZero(coverage[i])
    ensures MissedRanges(coverage[..i + 1]) == MissedRanges(coverage[..i])
  {
    assert coverage[..i + 1][..i] == coverage[..i];
  }

  /** A missed line after a line that is not missed opens a one-line range. */
  lemma OpenRun(coverage: seq<Marker>, i: nat)
    requires i < |coverage| && IsZero(coverage[i])
    requires i == 0 || !IsZero(coverage[i - 1])
    ensures MissedRanges(coverage[..i + 1]) == MissedRanges(coverage[..i]) + [Range(i + 1, i + 1)]
  {
    assert coverage[..i + 1][..i] == coverage[..i];
  }

  /** A missed line after a missed line extends the last range by one line. */
  lemma ExtendRun(coverage: seq<Marker>, e: nat, before: seq<Range>, start: nat)
    requires e + 1 < |coverage| && IsZero(coverage[e]) && IsZero(coverage[e + 1])
    requires MissedRanges(coverage[..e + 1]) == before + [Range(start, e + 1)]
    ensures MissedRanges(coverage[..e + 2]) == before + [Range(start, e + 2)]
  {
    var next := coverage[..e + 2];
    assert next[..e + 1] == coverage[..e + 1];
    assert next[e] == coverage[e];
    var init := before + [Range(start, e + 1)];
    assert init[..|init| - 1] == before;
  }

  lemma RangeAnnotationsSnoc(path: string, rs: seq<Range>, r: Range)
    ensures RangeAnnotations(path, rs + [r]) == RangeAnnotations(path, rs) + [RangeAnnotation(path, r)]
  {
  }

  /**
   * Inner loop of the line scan: from the first line of a run of `0` markers,
   * walk forward while the next marker is `0`; the run found is the range the
   * line-by-line definition appends.
   */
  method RunEnd(coverage: seq<Marker>, start: nat, ghost before: seq<Range>) returns (end: nat)
    requires start < |coverage| && IsZero(coverage[start])
    requires start == 0 || !IsZero(coverage[start - 1])
    requires MissedRanges(coverage[..start]) == before
    ensures start <= end < |coverage| && IsZero(coverage[end])
    ensures end + 1 == |coverage| || !IsZero(coverage[end + 1])
    ensures MissedRanges(coverage[..end + 1]) == before + [Range(start + 1, end + 1)]
  {
    end := start;
    OpenRun(coverage, start);
    while end + 1 < |coverage| && coverage[end + 1] == Count(0)
      invariant start <= end < |coverage|
      invariant IsZero(coverage[end])
      invariant MissedRanges(coverage[..end + 1]) == before + [Range(start + 1, end + 1)]
    {
      ExtendRun(coverage, end, before, start + 1);
      end := end + 1;
    }
  }

  /** Line scan of `computeCoverage`: the range annotations of one file, in order. */
  method ScanMissedRanges(path: string, coverage: seq<Marker>) returns (annotations: seq<Annotation>)
    ensures annotations == RangeAnnotations(path, MissedRanges(coverage))
  {
    annotations := [];
    var index := 0;
    ghost var ranges: seq<Range> := [];
    while index < |coverage|
      invariant 0 <= index <= |coverage|
      invariant 0 < index < |coverage| ==> !(IsZero(coverage[index - 1]) && IsZero(coverage[index]))
      invariant ranges == MissedRanges(coverage[..index])
      invariant annotations == RangeAnnotations(path, ranges)
    {
      if coverage[index] == Count(0) {
        // Marker `index` is line `index + 1`.
        var missedStartIndex := index;
        var missedEndIndex := RunEnd(coverage, missedStartIndex, ranges);
        var range := Range(missedStartIndex + 1, missedEndIndex + 1);
        RangeAnnotationsSnoc(path, ranges, range);
        annotations := annotations + [RangeAnnotation(path, range)];
        ranges := ranges + [range];
        index := missedEndIndex;
      } else {
        SkipLine(coverage, index);
      }
      index := index + 1;
    }
    assert coverage[..|coverage|] == coverage;
  }

  /** `computeCoverage` from the parsed report on: filter, then annotate file after file. */
  method ComputeCoverage(sourceFiles: seq<FileCoverage>) returns (annotations: seq<Annotation>)
    ensures annotations == CoverageAnnotations(sourceFiles)
  {
    annotations := [];
    var files := FilesWithMissedLines(sourceFiles);
    for i := 0 to |files|
      invariant annotations == Concat(files[..i])
    {
      var sourceFile := files[i];
      ConcatSnoc(files, i);
      ghost var previous := annotations;
      var computedCoverage := CoveragePercent(sourceFile.coverage);
      var path := sourceFile.name;
      var rangeAnnotations := ScanMissedRanges(path, sourceFile.coverage);
      var drop := Annotation(path, 1, 1, Action.Failure, CoverageDroppedTo(computedCoverage));
      annotations := annotations + rangeAnnotations;
      annotations := annotations + [drop];
      ConcatAssociative(previous, rangeAnnotations, [drop]);
    }
    assert files[..|files|] == files;
  }

  /** The sample file's markers: line 4 is the only missed line, and three lines are not executable. */
  lemma SampleFileFacts(c: seq<Marker>)
    requires c == [Null, Count(1), Count(1), Count(0), Count(1), Null, Null]
    ensures MissedRanges(c) == [Range(4, 4)]
    ensures CountZeros(c) == 1 && CountNulls(c) == 3
    ensures CoveragePercent(c) == 200.0 / 3.0
  {
    SampleFileRanges(c);
    MissedRangesCountZeros(c);
    SampleFileNulls(c);
  }

  lemma SampleFileRanges(c: seq<Marker>)
    requires c == [Null, Count(1), Count(1), Count(0), Count(1), Null, Null]
    ensures MissedRanges(c) == [Range(4, 4)]
  {
    assert c[..0] == [];
    SkipLine(c, 0);
    SkipLine(c, 1);
    SkipLine(c, 2);
    OpenRun(c, 3);
    SkipLine(c, 4);
    SkipLine(c, 5);
    SkipLine(c, 6);
    assert c[..7] == c;
  }

  lemma SampleFileNulls(c: seq<Marker>)
    requires c == [Null, Count(1), Count(1), Count(0), Count(1), Null, Null]
    ensures CountNulls(c) == 3
  {
    assert c[..7] == c;
    assert c[..6][..5] == c[..5] && c[..5][..4] == c[..4] && c[..4][..3] == c[..3];
    assert c[..3][..2] == c[..2] && c[..2][..1] == c[..1] && c[..1][..0] == [];
    assert CountNulls(c[..1]) == 1 && CountNulls(c[..2]) == 1 && CountNulls(c[..3]) == 1;
    assert CountNulls(c[..4]) == 1 && CountNulls(c[..5]) == 1 && CountNulls(c[..6]) == 2;
  }

  /** The fully covered sample files have no `0` marker. */
  lemma CleanSampleFile(c: seq<Marker>)
    requires c == [Null, Count(1), Count(1), Count(1), Count(1), Null, Count(1)]
    ensures CountZeros(c) == 0
  {
    assert !IsZero(c[0]) && !IsZero(c[1]) && !IsZero(c[2]) && !IsZero(c[3]);
    assert !IsZero(c[4]) && !IsZero(c[5]) && !IsZero(c[6]);
  }

  /** Filtering three files of which only the first has a missed line keeps just that one. */
  lemma FilterFirstOfThree(files: seq<FileCoverage>)
    requires |files| == 3 && HasMissedLines(files[0]) && !HasMissedLines(files[1]) && !HasMissedLines(files[2])
    ensures FilesWithMissedLines(files) == [files[0]]
  {
    assert files[..2][..1] == [files[0]] && [files[0]][..0] == [];
  }

  /**
   * The repository's sample report: one missed line (line 4) in the first
   * file gives its range annotation and then its drop annotation at 200/3
   * percent; the two fully covered files give nothing.
   */
  lemma SampleReport()
    ensures CoverageAnnotations([
              FileCoverage("mockFile1.ts", "abc", [Null, Count(1), Count(1), Count(0), Count(1), Null, Null]),
              FileCoverage("mockFile2.ts", "abc1", [Null, Count(1), Count(1), Count(1), Count(1), Null, Count(1)]),
              FileCoverage("mockFile3.ts", "abc2", [Null, Count(1), Count(1), Count(1), Count(1), Null, Count(1)])])
            == [Annotation("mockFile1.ts", 4, 4, Action.Failure, MissedCoverage),
                Annotation("mockFile1.ts", 1, 1, Action.Failure, CoverageDroppedTo(200.0 / 3.0))]
  {
    var c1 := [Null, Count(1), Count(1), Count(0), Count(1), Null, Null];
    var c2 := [Null, Count(1), Count(1), Count(1), Count(1), Null, Count(1)];
    var f1 := FileCoverage("mockFile1.ts", "abc", c1);
    var files := [f1, FileCoverage("mockFile2.ts", "abc1", c2), FileCoverage("mockFile3.ts", "abc2", c2)];
    SampleFileFacts(c1);
    CleanSampleFile(c2);
    FilterFirstOfThree(files);
    assert Concat([f1]) == FileAnnotations(f1) by { assert [f1][..0] == []; }
    assert RangeAnnotations(f1.name, [Range(4, 4)]) == [Annotation(f1.name, 4, 4, Action.Failure, MissedCoverage)];
  }
}
