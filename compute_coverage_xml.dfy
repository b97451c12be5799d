/**
 * The JaCoCo pipeline, `computeCoverageXML` (src/computeCoverageXML.ts): from
 * the typed report and the list of files changed in the pull request to the
 * annotations and the project-wide coverage fraction.
 */
module ComputeCoverageXml {
  import opened Js
  import opened Action
  import opened Jacoco
  import opened Ratio
  import opened Seqs

  /** Files whose line coverage is at or above this percentage get no annotations. */
  const CoverageGate: real := 90.0

  /** `report.package || []` */
  function PackagesOf(r: Report): seq<Package> {
    r.packages.GetOr([])
  }

  /** `pkg.sourcefile || []` */
  function SourceFilesOf(p: Package): seq<SourceFile> {
    p.sourceFiles.GetOr([])
  }

  /** `sourceFile.line || []` */
  function LinesOf(s: SourceFile): seq<Line> {
    s.lines.GetOr([])
  }

  /** `c.type == 'LINE'` */
  predicate IsLineCounter(c: Counter) {
    c.kind == Some("LINE")
  }

  /** `sourceFile.counter?.find(c => c.type == 'LINE')`: the file's first LINE counter. */
  function LineCounter(s: SourceFile): (r: Option<Counter>)
    ensures r.None? <==> s.counters.None? || forall c :: c in s.counters.value ==> !IsLineCounter(c)
    ensures r.Some? ==> s.counters.Some? && FirstLineCounterAt(s.counters.value, r.value)
  {
    match s.counters
    case None => None
    case Some(cs) => Find(cs, IsLineCounter)
  }

  /** `c` is the counter at some index `i` of `cs`, it is of type `LINE`, and no counter before `i` is. */
  predicate FirstLineCounterAt(cs: seq<Counter>, c: Counter) {
    exists i :: 0 <= i < |cs| && cs[i] == c && IsLineCounter(c) && forall j :: 0 <= j < i ==> !IsLineCounter(cs[j])
  }

  /** `...?.missed || 0`: the LINE counter's missed lines, 0 when it or the count is missing. */
  function Missed(s: SourceFile): nat {
    match LineCounter(s)
    case None => 0
    case Some(c) => OrZero(c.missed)
  }

  /** `...?.covered || 0`: the LINE counter's covered lines, 0 when it or the count is missing. */
  function Covered(s: SourceFile): nat {
    match LineCounter(s)
    case None => 0
    case Some(c) => OrZero(c.covered)
  }

  /**
   * The counts a file's percentage is computed from. Without counters, or
   * without a counter of type `LINE`, both are 0. Otherwise they come from the
   * first `LINE` counter in the list: a count that is a number is taken as it
   * is, and a `NaN` count reads as 0.
   */
  lemma LineCounts(s: SourceFile)
    ensures s.counters.None? || (forall c :: c in s.counters.value ==> !IsLineCounter(c)) ==>
              Missed(s) == 0 && Covered(s) == 0
    ensures s.counters.Some? ==>
              forall i :: 0 <= i < |s.counters.value| && IsLineCounter(s.counters.value[i]) &&
                          (forall j :: 0 <= j < i ==> !IsLineCounter(s.counters.value[j])) ==>
                var c := s.counters.value[i];
                (c.missed.Int? ==> Missed(s) == c.missed.value) && (c.missed.NaN? ==> Missed(s) == 0) &&
                (c.covered.Int? ==> Covered(s) == c.covered.value) && (c.covered.NaN? ==> Covered(s) == 0)
  {
    if s.counters.Some? {
      var cs := s.counters.value;
      forall i | 0 <= i < |cs| && IsLineCounter(cs[i]) && (forall j :: 0 <= j < i ==> !IsLineCounter(cs[j]))
        ensures LineCounter(s) == Some(cs[i])
      {
        assert cs[i] in cs;
        var r := LineCounter(s);
        var k :| 0 <= k < |cs| && cs[k] == r.value && IsLineCounter(cs[k]) && forall j :: 0 <= j < k ==> !IsLineCounter(cs[j]);
      }
    }
  }

  /**
   * A file's line coverage in percent: covered over covered plus missed, and 0
   * for a file without counted lines. It lies in [0, 100], is 0 exactly when no
   * line is covered, and 100 exactly when lines are covered and none is missed.
   */
  function FileCoverage(missed: nat, covered: nat): (r: real)
    ensures 0.0 <= r <= 100.0
    ensures r == 0.0 <==> covered == 0
    ensures r == 100.0 <==> missed == 0 && covered > 0
  {
    var total := missed + covered;
    if total == 0 then 0.0
    else
      QuotientFacts(covered, total);
      (covered as real / total as real) * 100.0
  }

  /**
   * The project-wide figure: a fraction in [0, 1], not a percentage; 1 when no
   * line is counted, and otherwise the file formula divided by 100.
   */
  function TotalCoverage(totalMissed: nat, totalCovered: nat): (r: real)
    ensures 0.0 <= r <= 1.0
    ensures totalMissed + totalCovered == 0 ==> r == 1.0
    ensures totalMissed + totalCovered > 0 ==> r * 100.0 == FileCoverage(totalMissed, totalCovered)
  {
    var totalLines := totalMissed + totalCovered;
    if totalLines == 0 then 1.0
    else
      QuotientFacts(totalCovered, totalLines);
      totalCovered as real / totalLines as real
  }

  /** Missed lines summed over source files. */
  function SumMissed(files: seq<SourceFile>): nat
    decreases |files|
  {
    if files == [] then 0 else SumMissed(files[..|files| - 1]) + Missed(files[|files| - 1])
  }

  /** Covered lines summed over source files. */
  function SumCovered(files: seq<SourceFile>): nat
    decreases |files|
  {
    if files == [] then 0 else SumCovered(files[..|files| - 1]) + Covered(files[|files| - 1])
  }

  /** Missed lines summed over every source file of every package. */
  function TotalMissed(pkgs: seq<Package>): nat
    decreases |pkgs|
  {
    if pkgs == [] then 0 else TotalMissed(pkgs[..|pkgs| - 1]) + SumMissed(SourceFilesOf(pkgs[|pkgs| - 1]))
  }

  /** Covered lines summed over every source file of every package. */
  function TotalCovered(pkgs: seq<Package>): nat
    decreases |pkgs|
  {
    if pkgs == [] then 0 else TotalCovered(pkgs[..|pkgs| - 1]) + SumCovered(SourceFilesOf(pkgs[|pkgs| - 1]))
  }

  /** The totals of two package lists laid end to end add up. */
  lemma {:induction false} TotalsAppend(a: seq<Package>, b: seq<Package>)
    ensures TotalMissed(a + b) == TotalMissed(a) + TotalMissed(b)
    ensures TotalCovered(a + b) == TotalCovered(a) + TotalCovered(b)
    decreases |b|
  {
    if b == [] {
      assert a + b == a;
    } else {
      var ab := a + b;
      assert ab[..|ab| - 1] == a + b[..|b| - 1];
      assert ab[|ab| - 1] == b[|b| - 1];
      TotalsAppend(a, b[..|b| - 1]);
    }
  }

  /** `${pkg.name}/${sourceFile.name}` */
  function SuffixOf(p: Package, s: SourceFile): string {
    Interpolate(p.name) + "/" + Interpolate(s.name)
  }

  /** `files.find(f => f.filename.endsWith(suffix))`: the first changed file with that suffix. */
  function ChangedFile(changedFiles: seq<string>, suffix: string): (r: Option<string>)
    ensures r.None? <==> forall i :: 0 <= i < |changedFiles| ==> !EndsWith(changedFiles[i], suffix)
    ensures r.Some? ==> exists i :: 0 <= i < |changedFiles| && changedFiles[i] == r.value &&
                                    EndsWith(r.value, suffix) &&
                                    forall j :: 0 <= j < i ==> !EndsWith(changedFiles[j], suffix)
  {
    Find(changedFiles, f => EndsWith(f, suffix))
  }

  // ---------------------------------------------------------------------
  // Missed ranges
  // ---------------------------------------------------------------------

  /** A range of line numbers, inclusive, as the report's `nr` values give them. */
  datatype MissedRange = MissedRange(start: Num, end: Num)

  /** `line.ci === 0` */
  predicate IsMissed(l: Line) {
    l.ci == Some(Int(0))
  }

  /**
   * The ranges of missed lines, defined line by line: a missed line extends
   * the last range when the line listed before it was missed too and its `nr`
   * is one more; otherwise it opens a new range. A line that is not missed
   * (its `ci` absent or nonzero) closes the open range.
   */
  function MissedRanges(lines: seq<Line>): (rs: seq<MissedRange>)
    ensures |lines| > 0 && IsMissed(lines[|lines| - 1]) ==>
              |rs| > 0 && rs[|rs| - 1].end == lines[|lines| - 1].nr
    decreases |lines|
  {
    if lines == [] then []
    else
      var n := |lines|;
      var init := MissedRanges(lines[..n - 1]);
      var last := lines[n - 1];
      if !IsMissed(last) then init
      else if n >= 2 && IsMissed(lines[n - 2]) && Follows(lines[n - 2].nr, last.nr) then
        assert lines[..n - 1][n - 2] == lines[n - 2];
        init[..|init| - 1] + [MissedRange(init[|init| - 1].start, last.nr)]
      else init + [MissedRange(last.nr, last.nr)]
  }

  /** The range still open in the state machine, as a list of zero or one ranges. */
  function OpenRange(rangeStart: Option<Num>, prevNr: Option<Num>): seq<MissedRange> {
    if rangeStart.Some? && prevNr.Some? then [MissedRange(rangeStart.value, prevNr.value)] else []
  }

  /** A line that is not missed leaves the ranges of the lines before it unchanged. */
  lemma SkipLine(lines: seq<Line>, i: nat)
    requires i < |lines| && !IsMissed(lines[i])
    ensures MissedRanges(lines[..i + 1]) == MissedRanges(lines[..i])
  {
    assert lines[..i + 1][..i] == lines[..i];
  }

  /** A missed line that does not continue a run opens a one-line range. */
  lemma OpenRun(lines: seq<Line>, i: nat)
    requires i < |lines| && IsMissed(lines[i])
    requires i == 0 || !IsMissed(lines[i - 1]) || !Follows(lines[i - 1].nr, lines[i].nr)
    ensures MissedRanges(lines[..i + 1]) == MissedRanges(lines[..i]) + [MissedRange(lines[i].nr, lines[i].nr)]
  {
    var next := lines[..i + 1];
    assert next[..i] == lines[..i];
    if i > 0 { assert next[i - 1] == lines[i - 1]; }
  }

  /** A missed line right after a missed line with the preceding `nr` extends the last range. */
  lemma ExtendRun(lines: seq<Line>, i: nat, before: seq<MissedRange>, start: Num)
    requires 0 < i < |lines| && IsMissed(lines[i]) && IsMissed(lines[i - 1]) && Follows(lines[i - 1].nr, lines[i].nr)
    requires MissedRanges(lines[..i]) == before + [MissedRange(start, lines[i - 1].nr)]
    ensures MissedRanges(lines[..i + 1]) == before + [MissedRange(start, lines[i].nr)]
  {
    var next := lines[..i + 1];
    assert next[..i] == lines[..i];
    assert next[i - 1] == lines[i - 1];
    var init := before + [MissedRange(start, lines[i - 1].nr)];
    assert init[..|init| - 1] == before;
  }

  /**
   * The state of the grouping loop after the first `i` lines: a range is open
   * exactly when the line before was missed, `prevNr` is that line's `nr`, and
   * the closed ranges followed by the open one are the ranges of those lines.
   */
  predicate GroupingState(lines: seq<Line>, i: nat, missedRanges: seq<MissedRange>, rangeStart: Option<Num>, prevNr: Option<Num>)
    requires i <= |lines|
  {
    (rangeStart.None? <==> prevNr.None?) &&
    (rangeStart.Some? <==> i > 0 && IsMissed(lines[i - 1])) &&
    (prevNr.Some? ==> i > 0 && prevNr.value == lines[i - 1].nr) &&
    missedRanges + OpenRange(rangeStart, prevNr) == MissedRanges(lines[..i])
  }

  /** A missed line with no range open opens one. */
  lemma GroupOpen(lines: seq<Line>, i: nat, missedRanges: seq<MissedRange>)
    requires i < |lines| && IsMissed(lines[i]) && GroupingState(lines, i, missedRanges, None, None)
    ensures GroupingState(lines, i + 1, missedRanges, Some(lines[i].nr), Some(lines[i].nr))
  {
    OpenRun(lines, i);
  }

  /** A missed line after a gap in `nr` closes the open range and opens a new one. */
  lemma GroupGap(lines: seq<Line>, i: nat, missedRanges: seq<MissedRange>, rangeStart: Num, prevNr: Num)
    requires i < |lines| && IsMissed(lines[i]) && !Follows(prevNr, lines[i].nr)
    requires GroupingState(lines, i, missedRanges, Some(rangeStart), Some(prevNr))
    ensures GroupingState(lines, i + 1, missedRanges + [MissedRange(rangeStart, prevNr)], Some(lines[i].nr), Some(lines[i].nr))
  {
    OpenRun(lines, i);
  }

  /** A missed line right after the open range extends it. */
  lemma GroupExtend(lines: seq<Line>, i: nat, missedRanges: seq<MissedRange>, rangeStart: Num, prevNr: Num)
    requires i < |lines| && IsMissed(lines[i]) && Follows(prevNr, lines[i].nr)
    requires GroupingState(lines, i, missedRanges, Some(rangeStart), Some(prevNr))
    ensures GroupingState(lines, i + 1, missedRanges, Some(rangeStart), Some(lines[i].nr))
  {
    ExtendRun(lines, i, missedRanges, rangeStart);
  }

  /** A line that is not missed closes the open range. */
  lemma GroupClose(lines: seq<Line>, i: nat, missedRanges: seq<MissedRange>, rangeStart: Num, prevNr: Num)
    requires i < |lines| && !IsMissed(lines[i])
    requires GroupingState(lines, i, missedRanges, Some(rangeStart), Some(prevNr))
    ensures GroupingState(lines, i + 1, missedRanges + [MissedRange(rangeStart, prevNr)], None, None)
  {
    SkipLine(lines, i);
  }

  /** A line that is not missed, with no range open, changes nothing. */
  lemma GroupSkip(lines: seq<Line>, i: nat, missedRanges: seq<MissedRange>)
    requires i < |lines| && !IsMissed(lines[i]) && GroupingState(lines, i, missedRanges, None, None)
    ensures GroupingState(lines, i + 1, missedRanges, None, None)
  {
    SkipLine(lines, i);
  }

  /**
   * The grouping loop of `computeCoverageXML`: a state machine over
   * `rangeStart` and `prevNr` that closes a range at a line that is not missed
   * and at a gap in `nr`.
   */
  method GroupMissedLines(lines: seq<Line>) returns (missedRanges: seq<MissedRange>)
    ensures missedRanges == MissedRanges(lines)
  {
    missedRanges := [];
    var rangeStart: Option<Num> := None;
    var prevNr: Option<Num> := None;
    assert lines[..0] == [];
    for i := 0 to |lines|
      invariant GroupingState(lines, i, missedRanges, rangeStart, prevNr)
    {
      var line := lines[i];
      if line.ci == Some(Int(0)) {
        if rangeStart.None? {
          GroupOpen(lines, i, missedRanges);
          rangeStart := Some(line.nr);
        } else if prevNr.Some? && !Follows(prevNr.value, line.nr) {
          GroupGap(lines, i, missedRanges, rangeStart.value, prevNr.value);
          missedRanges := missedRanges + [MissedRange(rangeStart.value, prevNr.value)];
          rangeStart := Some(line.nr);
        } else {
          GroupExtend(lines, i, missedRanges, rangeStart.value, prevNr.value);
        }
        prevNr := Some(line.nr);
      } else {
        if rangeStart.Some? {
          GroupClose(lines, i, missedRanges, rangeStart.value, prevNr.value);
          missedRanges := missedRanges + [MissedRange(rangeStart.value, prevNr.value)];
          rangeStart := None;
          prevNr := None;
        } else {
          GroupSkip(lines, i, missedRanges);
        }
      }
    }
    if rangeStart.Some? {
      missedRanges := missedRanges + [MissedRange(rangeStart.value, prevNr.value)];
    }
    assert lines[..|lines|] == lines;
  }

  // ---------------------------------------------------------------------
  // Properties of the ranges, for a line list with increasing numbers
  // ---------------------------------------------------------------------

  /** Every `nr` is a number and the numbers strictly increase along the list. */
  predicate StrictlyIncreasing(lines: seq<Line>) {
    (forall i :: 0 <= i < |lines| ==> lines[i].nr.Int?) &&
    forall i, j :: 0 <= i < j < |lines| ==> lines[i].nr.value < lines[j].nr.value
  }

  /** `nr` lies within range `r`. */
  predicate InRange(nr: int, r: MissedRange) {
    r.start.Int? && r.end.Int? && r.start.value <= nr <= r.end.value
  }

  /** Some listed line with number `k` is missed. */
  predicate ListedMissed(lines: seq<Line>, k: nat) {
    exists j :: 0 <= j < |lines| && lines[j].nr == Int(k) && IsMissed(lines[j])
  }

  /** Each range has numeric bounds, `start <= end`, and every number in it is a listed missed line. */
  predicate RangesOfMissedLines(lines: seq<Line>, rs: seq<MissedRange>) {
    forall i :: 0 <= i < |rs| ==>
      rs[i].start.Int? && rs[i].end.Int? && rs[i].start.value <= rs[i].end.value &&
      forall k: nat :: rs[i].start.value <= k <= rs[i].end.value ==> ListedMissed(lines, k)
  }

  /** Range `a` ends more than one line before range `b` starts. */
  predicate Apart(a: MissedRange, b: MissedRange) {
    a.end.Int? && b.start.Int? && a.end.value + 1 < b.start.value
  }

  /** Ranges ascend and no two of them touch. */
  predicate Separated(rs: seq<MissedRange>) {
    forall i, j :: 0 <= i < j < |rs| ==> Apart(rs[i], rs[j])
  }

  /** Every missed line lies in some range. */
  predicate CoversMissedLines(lines: seq<Line>, rs: seq<MissedRange>) {
    forall j :: 0 <= j < |lines| && IsMissed(lines[j]) ==>
      lines[j].nr.Int? && exists i :: 0 <= i < |rs| && InRange(lines[j].nr.value, rs[i])
  }

  /** Every range ends at a number no greater than `bound`, and below `bound` unless `touching`. */
  predicate EndsBelow(rs: seq<MissedRange>, bound: int, touching: bool) {
    forall i :: 0 <= i < |rs| ==> rs[i].end.Int? && rs[i].end.value <= bound && (touching || rs[i].end.value < bound)
  }

  lemma StrictlyIncreasingPrefix(lines: seq<Line>, m: nat)
    requires StrictlyIncreasing(lines) && m <= |lines|
    ensures StrictlyIncreasing(lines[..m])
  {
    var p := lines[..m];
    assert forall i :: 0 <= i < m ==> p[i] == lines[i];
  }

  /**
   * How the last line turns the ranges `init` of the lines before it into
   * `rs`: unchanged, the last range extended to it, or a new one-line range.
   */
  predicate Step(lines: seq<Line>, init: seq<MissedRange>, rs: seq<MissedRange>)
    requires |lines| > 0
  {
    var n := |lines|;
    if !IsMissed(lines[n - 1]) then rs == init
    else if n >= 2 && IsMissed(lines[n - 2]) && Follows(lines[n - 2].nr, lines[n - 1].nr) then
      |init| > 0 && init[|init| - 1].end == lines[n - 2].nr &&
      rs == init[..|init| - 1] + [MissedRange(init[|init| - 1].start, lines[n - 1].nr)]
    else rs == init + [MissedRange(lines[n - 1].nr, lines[n - 1].nr)]
  }

  lemma MissedRangesStep(lines: seq<Line>)
    requires |lines| > 0
    ensures Step(lines, MissedRanges(lines[..|lines| - 1]), MissedRanges(lines))
  {
    var n := |lines|;
    if n >= 2 {
      assert lines[..n - 1][n - 2] == lines[n - 2];
    }
  }

  /** Line `n - 2` has a smaller number than line `n - 1`. */
  lemma LastTwoIncrease(lines: seq<Line>)
    requires StrictlyIncreasing(lines) && |lines| >= 2
    ensures lines[|lines| - 2].nr.value < lines[|lines| - 1].nr.value
  {
  }

  lemma EndsBelowStep(lines: seq<Line>, init: seq<MissedRange>, rs: seq<MissedRange>)
    requires |lines| > 0 && StrictlyIncreasing(lines) && Step(lines, init, rs)
    requires |lines| == 1 ==> init == []
    requires |lines| >= 2 ==> EndsBelow(init, lines[|lines| - 2].nr.value, IsMissed(lines[|lines| - 2]))
    ensures EndsBelow(rs, lines[|lines| - 1].nr.value, IsMissed(lines[|lines| - 1]))
  {
    var n := |lines|;
    var nr := lines[n - 1].nr.value;
    if n >= 2 {
      LastTwoIncrease(lines);
      assert EndsBelow(init, nr, false);
    }
    if IsMissed(lines[n - 1]) && n >= 2 && IsMissed(lines[n - 2]) && Follows(lines[n - 2].nr, lines[n - 1].nr) {
      forall i | 0 <= i < |rs| ensures rs[i].end.Int? && rs[i].end.value <= nr {
        if i < |init| - 1 { assert rs[i] == init[i]; }
      }
    } else if IsMissed(lines[n - 1]) {
      forall i | 0 <= i < |rs| ensures rs[i].end.Int? && rs[i].end.value <= nr {
        if i < |init| { assert rs[i] == init[i]; }
      }
    }
  }

  /** Every range ends at or below the last listed number, strictly below unless that line is missed. */
  lemma {:induction false} RangesEndBelow(lines: seq<Line>)
    requires StrictlyIncreasing(lines) && |lines| > 0
    ensures EndsBelow(MissedRanges(lines), lines[|lines| - 1].nr.value, IsMissed(lines[|lines| - 1]))
    decreases |lines|
  {
    var n := |lines|;
    var prefix := lines[..n - 1];
    MissedRangesStep(lines);
    if n >= 2 {
      StrictlyIncreasingPrefix(lines, n - 1);
      RangesEndBelow(prefix);
      assert prefix[n - 2] == lines[n - 2];
    }
    EndsBelowStep(lines, MissedRanges(prefix), MissedRanges(lines));
  }

  lemma SeparatedStep(lines: seq<Line>, init: seq<MissedRange>, rs: seq<MissedRange>)
    requires |lines| > 0 && StrictlyIncreasing(lines) && Step(lines, init, rs) && Separated(init)
    requires |lines| == 1 ==> init == []
    requires |lines| >= 2 ==> EndsBelow(init, lines[|lines| - 2].nr.value, IsMissed(lines[|lines| - 2]))
    ensures Separated(rs)
  {
    var n := |lines|;
    if IsMissed(lines[n - 1]) {
      if n >= 2 && IsMissed(lines[n - 2]) && Follows(lines[n - 2].nr, lines[n - 1].nr) {
        var m := |init| - 1;
        forall i, j | 0 <= i < j < |rs| ensures Apart(rs[i], rs[j]) {
          assert rs[i] == init[i];
          if j < m { assert rs[j] == init[j]; } else { assert rs[j].start == init[m].start; }
        }
      } else if n >= 2 {
        LastTwoIncrease(lines);
        forall i, j | 0 <= i < j < |rs| ensures Apart(rs[i], rs[j]) {
          assert rs[i] == init[i];
          if j < |init| { assert rs[j] == init[j]; }
        }
      }
    }
  }

  /** No two ranges touch: each ends more than one line before the next one starts. */
  lemma {:induction false} MissedRangesSeparated(lines: seq<Line>)
    requires StrictlyIncreasing(lines)
    ensures Separated(MissedRanges(lines))
    decreases |lines|
  {
    if lines != [] {
      var n := |lines|;
      var prefix := lines[..n - 1];
      StrictlyIncreasingPrefix(lines, n - 1);
      MissedRangesSeparated(prefix);
      MissedRangesStep(lines);
      if n >= 2 {
        RangesEndBelow(prefix);
        assert prefix[n - 2] == lines[n - 2];
      }
      SeparatedStep(lines, MissedRanges(prefix), MissedRanges(lines));
    }
  }

  /** A missed line listed before the last line is listed in the whole list too. */
  lemma ListedMissedGrows(lines: seq<Line>, k: nat)
    requires |lines| > 0 && ListedMissed(lines[..|lines| - 1], k)
    ensures ListedMissed(lines, k)
  {
    var prefix := lines[..|lines| - 1];
    var j :| 0 <= j < |prefix| && prefix[j].nr == Int(k) && IsMissed(prefix[j]);
    assert lines[j] == prefix[j];
  }

  lemma AreMissedStep(lines: seq<Line>, init: seq<MissedRange>, rs: seq<MissedRange>)
    requires |lines| > 0 && StrictlyIncreasing(lines) && Step(lines, init, rs)
    requires RangesOfMissedLines(lines[..|lines| - 1], init)
    ensures RangesOfMissedLines(lines, rs)
  {
    var n := |lines|;
    var last := lines[n - 1];
    forall i, k: nat | 0 <= i < |init| && init[i].start.value <= k <= init[i].end.value
      ensures ListedMissed(lines, k)
    {
      ListedMissedGrows(lines, k);
    }
    if IsMissed(last) {
      assert ListedMissed(lines, last.nr.value) by {
        assert lines[n - 1].nr == Int(last.nr.value);
      }
      if n >= 2 && IsMissed(lines[n - 2]) && Follows(lines[n - 2].nr, last.nr) {
        var m := |init| - 1;
        forall i | 0 <= i < |rs|
          ensures rs[i].start.Int? && rs[i].end.Int? && rs[i].start.value <= rs[i].end.value &&
                  forall k: nat :: rs[i].start.value <= k <= rs[i].end.value ==> ListedMissed(lines, k)
        {
          if i < m { assert rs[i] == init[i]; }
        }
      } else {
        forall i | 0 <= i < |rs|
          ensures rs[i].start.Int? && rs[i].end.Int? && rs[i].start.value <= rs[i].end.value &&
                  forall k: nat :: rs[i].start.value <= k <= rs[i].end.value ==> ListedMissed(lines, k)
        {
          if i < |init| { assert rs[i] == init[i]; }
        }
      }
    }
  }

  /** Every number within a range is a listed missed line. */
  lemma {:induction false} MissedRangesAreMissed(lines: seq<Line>)
    requires StrictlyIncreasing(lines)
    ensures RangesOfMissedLines(lines, MissedRanges(lines))
    decreases |lines|
  {
    if lines != [] {
      var n := |lines|;
      var prefix := lines[..n - 1];
      StrictlyIncreasingPrefix(lines, n - 1);
      MissedRangesAreMissed(prefix);
      MissedRangesStep(lines);
      AreMissedStep(lines, MissedRanges(prefix), MissedRanges(lines));
    }
  }

  lemma CoverStep(lines: seq<Line>, init: seq<MissedRange>, rs: seq<MissedRange>)
    requires |lines| > 0 && StrictlyIncreasing(lines) && Step(lines, init, rs)
    requires CoversMissedLines(lines[..|lines| - 1], init) && RangesOfMissedLines(lines, rs)
    ensures CoversMissedLines(lines, rs)
  {
    var n := |lines|;
    var prefix := lines[..n - 1];
    forall j | 0 <= j < n && IsMissed(lines[j])
      ensures lines[j].nr.Int? && exists i :: 0 <= i < |rs| && InRange(lines[j].nr.value, rs[i])
    {
      if j < n - 1 {
        assert prefix[j] == lines[j];
        var i :| 0 <= i < |init| && InRange(lines[j].nr.value, init[i]);
        if IsMissed(lines[n - 1]) && n >= 2 && IsMissed(lines[n - 2]) && Follows(lines[n - 2].nr, lines[n - 1].nr) {
          assert InRange(lines[j].nr.value, rs[i]);
        } else {
          assert rs[i] == init[i];
        }
      } else {
        assert InRange(lines[j].nr.value, rs[|rs| - 1]);
      }
    }
  }

  /** Every missed line lies in some range. */
  lemma {:induction false} MissedRangesCoverMissed(lines: seq<Line>)
    requires StrictlyIncreasing(lines)
    ensures CoversMissedLines(lines, MissedRanges(lines))
    decreases |lines|
  {
    if lines != [] {
      var n := |lines|;
      var prefix := lines[..n - 1];
      StrictlyIncreasingPrefix(lines, n - 1);
      MissedRangesCoverMissed(prefix);
      MissedRangesAreMissed(lines);
      MissedRangesStep(lines);
      CoverStep(lines, MissedRanges(prefix), MissedRanges(lines));
    }
  }

  /**
   * For a line list whose numbers strictly increase, the missed ranges have
   * numeric bounds with `start <= end`, contain only listed missed lines,
   * ascend without touching, and every missed line lies in exactly one range.
   */
  lemma MissedRangesPartition(lines: seq<Line>)
    requires StrictlyIncreasing(lines)
    ensures RangesOfMissedLines(lines, MissedRanges(lines))
    ensures Separated(MissedRanges(lines))
    ensures CoversMissedLines(lines, MissedRanges(lines))
    ensures var rs := MissedRanges(lines);
            forall i, j, nr :: 0 <= i < j < |rs| && InRange(nr, rs[i]) ==> !InRange(nr, rs[j])
  {
    MissedRangesAreMissed(lines);
    MissedRangesSeparated(lines);
    MissedRangesCoverMissed(lines);
  }

  /**
   * Lines 1 and 2 missed, 3 covered, 4 missed, 6 missed after a gap, 7 without
   * `ci`: the covered line and the gap each close a range.
   */
  lemma GroupingExample()
    ensures MissedRanges([
              Line(Int(1), None, Some(Int(0)), None, None),
              Line(Int(2), None, Some(Int(0)), None, None),
              Line(Int(3), None, Some(Int(4)), None, None),
              Line(Int(4), None, Some(Int(0)), None, None),
              Line(Int(6), None, Some(Int(0)), None, None),
              Line(Int(7), None, None, None, None)])
            == [MissedRange(Int(1), Int(2)), MissedRange(Int(4), Int(4)), MissedRange(Int(6), Int(6))]
  {
    var lines := [
      Line(Int(1), None, Some(Int(0)), None, None),
      Line(Int(2), None, Some(Int(0)), None, None),
      Line(Int(3), None, Some(Int(4)), None, None),
      Line(Int(4), None, Some(Int(0)), None, None),
      Line(Int(6), None, Some(Int(0)), None, None),
      Line(Int(7), None, None, None, None)];
    assert lines[..0] == [];
    OpenRun(lines, 0);
    ExtendRun(lines, 1, [], Int(1));
    SkipLine(lines, 2);
    OpenRun(lines, 3);
    OpenRun(lines, 4);
    SkipLine(lines, 5);
    assert lines[..6] == lines;
  }

  // ---------------------------------------------------------------------
  // Annotations
  // ---------------------------------------------------------------------

  /** The "coverage dropped" annotation pinned to line 1, carrying the file's percentage. */
  function DropAnnotation(path: string, fileCoverage: real, fileName: Option<string>): Annotation {
    Annotation(path, Int(1), Int(1), Failure, fileCoverage, CoverageDroppedOnTo(fileCoverage, fileName))
  }

  /** A single line is named as such when `start === end`, and as a span otherwise. */
  function RangeMessage(r: MissedRange): (m: Message)
    ensures m.MissedOnLine? <==> StrictEquals(r.start, r.end)
    ensures m.MissedOnLine? ==> m.line == r.start
    ensures m.MissedOnLines? ==> m.first == r.start && m.last == r.end
  {
    if StrictEquals(r.start, r.end) then MissedOnLine(r.start) else MissedOnLines(r.start, r.end)
  }

  function RangeAnnotation(path: string, r: MissedRange): Annotation {
    Annotation(path, r.start, r.end, Failure, 0.0, RangeMessage(r))
  }

  function RangeAnnotations(path: string, rs: seq<MissedRange>): (anns: seq<Annotation>)
    ensures |anns| == |rs|
    ensures forall i :: 0 <= i < |rs| ==> anns[i] == RangeAnnotation(path, rs[i])
  {
    seq(|rs|, i requires 0 <= i < |rs| => RangeAnnotation(path, rs[i]))
  }

  /**
   * For a line list whose numbers strictly increase, the message of a grouped
   * range names a single line exactly when one listed line falls in the range,
   * and the line it names is a listed missed line.
   */
  lemma RangeMessageNamesOneLine(lines: seq<Line>, i: nat)
    requires StrictlyIncreasing(lines)
    requires i < |MissedRanges(lines)|
    ensures var r := MissedRanges(lines)[i];
            RangeMessage(r).MissedOnLine? <==>
              forall j, k ::
                0 <= j < |lines| && 0 <= k < |lines| && InRange(lines[j].nr.value, r) && InRange(lines[k].nr.value, r)
                ==> j == k
    ensures var m := RangeMessage(MissedRanges(lines)[i]);
            m.MissedOnLine? ==> exists j :: 0 <= j < |lines| && lines[j].nr == m.line && IsMissed(lines[j])
  {
    var r := MissedRanges(lines)[i];
    MissedRangesPartition(lines);
    assert r.start.Int? && r.end.Int? && r.start.value <= r.end.value;
    assert ListedMissed(lines, r.start.value);
    if !StrictEquals(r.start, r.end) {
      assert ListedMissed(lines, r.end.value);
      var j :| 0 <= j < |lines| && lines[j].nr == r.start && IsMissed(lines[j]);
      var k :| 0 <= k < |lines| && lines[k].nr == r.end && IsMissed(lines[k]);
      assert InRange(lines[j].nr.value, r) && InRange(lines[k].nr.value, r) && j != k;
    }
  }

  /** The file passes the gate: it matches a changed file and its coverage is below 90. */
  predicate Gated(p: Package, s: SourceFile, changedFiles: seq<string>) {
    ChangedFile(changedFiles, SuffixOf(p, s)).Some? && FileCoverage(Missed(s), Covered(s)) < CoverageGate
  }

  /** The annotations of one source file. */
  function FileAnnotations(p: Package, s: SourceFile, changedFiles: seq<string>): seq<Annotation> {
    var fileCoverage := FileCoverage(Missed(s), Covered(s));
    match ChangedFile(changedFiles, SuffixOf(p, s))
    case Some(path) =>
      if fileCoverage < CoverageGate
      then [DropAnnotation(path, fileCoverage, s.name)] + RangeAnnotations(path, MissedRanges(LinesOf(s)))
      else []
    case None => []
  }

  /** The annotations of the given source files of package `p`, file after file. */
  function FilesAnnotations(p: Package, files: seq<SourceFile>, changedFiles: seq<string>): seq<Annotation>
    decreases |files|
  {
    if files == [] then []
    else FilesAnnotations(p, files[..|files| - 1], changedFiles) + FileAnnotations(p, files[|files| - 1], changedFiles)
  }

  /** The annotations of the given packages, package after package. */
  function PackagesAnnotations(pkgs: seq<Package>, changedFiles: seq<string>): seq<Annotation>
    decreases |pkgs|
  {
    if pkgs == [] then []
    else
      var last := pkgs[|pkgs| - 1];
      PackagesAnnotations(pkgs[..|pkgs| - 1], changedFiles) + FilesAnnotations(last, SourceFilesOf(last), changedFiles)
  }

  /** What `computeCoverageXML` returns for a report and the pull request's changed file names. */
  function CoverageXml(report: Report, changedFiles: seq<string>): TotalCoverageInfo {
    var pkgs := PackagesOf(report);
    TotalCoverageInfo(TotalCoverage(TotalMissed(pkgs), TotalCovered(pkgs)), PackagesAnnotations(pkgs, changedFiles))
  }

  /**
   * A source file is annotated exactly when it passes the gate. Its
   * annotations are then the drop annotation on line 1 with the file's
   * percentage, followed by one annotation per missed range in order with
   * coverage 0, all failures on the path of the first matching changed file.
   * A matching file without counted lines has coverage 0 and is annotated.
   */
  lemma FileAnnotationsShape(p: Package, s: SourceFile, changedFiles: seq<string>)
    ensures var anns := FileAnnotations(p, s, changedFiles);
            (|anns| > 0 <==> Gated(p, s, changedFiles)) &&
            (Missed(s) + Covered(s) == 0 && ChangedFile(changedFiles, SuffixOf(p, s)).Some? ==> |anns| > 0)
    ensures var anns := FileAnnotations(p, s, changedFiles);
            var rs := MissedRanges(LinesOf(s));
            |anns| > 0 ==>
              var path := ChangedFile(changedFiles, SuffixOf(p, s)).value;
              path in changedFiles && EndsWith(path, SuffixOf(p, s)) &&
              |anns| == |rs| + 1 &&
              anns[0] == DropAnnotation(path, FileCoverage(Missed(s), Covered(s)), s.name) &&
              (forall i :: 0 <= i < |anns| ==> anns[i].path == path && anns[i].level == Failure) &&
              forall i :: 1 <= i < |anns| ==>
                anns[i].startLine == rs[i - 1].start && anns[i].endLine == rs[i - 1].end && anns[i].coverage == 0.0
  {
  }

  /**
   * The totals count every source file of every package, whether or not it
   * matches a changed file or passes the gate: the change list does not
   * affect the total coverage.
   */
  lemma TotalIgnoresGate(report: Report, changedFiles: seq<string>, otherChangedFiles: seq<string>)
    ensures CoverageXml(report, changedFiles).totalCoverage == CoverageXml(report, otherChangedFiles).totalCoverage
    ensures CoverageXml(report, changedFiles).totalCoverage ==
            TotalCoverage(TotalMissed(PackagesOf(report)), TotalCovered(PackagesOf(report)))
  {
  }

  /** Every annotation of the result is a failure on the path of a changed file. */
  lemma {:induction false} AnnotationsOnChangedFiles(pkgs: seq<Package>, changedFiles: seq<string>)
    ensures forall a :: a in PackagesAnnotations(pkgs, changedFiles) ==> a.level == Failure && a.path in changedFiles
    decreases |pkgs|
  {
    if pkgs != [] {
      var last := pkgs[|pkgs| - 1];
      AnnotationsOnChangedFiles(pkgs[..|pkgs| - 1], changedFiles);
      FilesOnChangedFiles(last, SourceFilesOf(last), changedFiles);
    }
  }

  lemma {:induction false} FilesOnChangedFiles(p: Package, files: seq<SourceFile>, changedFiles: seq<string>)
    ensures forall a :: a in FilesAnnotations(p, files, changedFiles) ==> a.level == Failure && a.path in changedFiles
    decreases |files|
  {
    if files != [] {
      FilesOnChangedFiles(p, files[..|files| - 1], changedFiles);
      FileAnnotationsShape(p, files[|files| - 1], changedFiles);
    }
  }

  /** One more source file adds its counts and its annotations. */
  lemma FilesStep(p: Package, files: seq<SourceFile>, j: nat, changedFiles: seq<string>)
    requires j < |files|
    ensures SumMissed(files[..j + 1]) == SumMissed(files[..j]) + Missed(files[j])
    ensures SumCovered(files[..j + 1]) == SumCovered(files[..j]) + Covered(files[j])
    ensures FilesAnnotations(p, files[..j + 1], changedFiles) ==
            FilesAnnotations(p, files[..j], changedFiles) + FileAnnotations(p, files[j], changedFiles)
  {
    assert files[..j + 1][..j] == files[..j];
  }

  /** One more package adds the counts and annotations of all its source files. */
  lemma PackagesStep(pkgs: seq<Package>, i: nat, changedFiles: seq<string>)
    requires i < |pkgs|
    ensures TotalMissed(pkgs[..i + 1]) == TotalMissed(pkgs[..i]) + SumMissed(SourceFilesOf(pkgs[i]))
    ensures TotalCovered(pkgs[..i + 1]) == TotalCovered(pkgs[..i]) + SumCovered(SourceFilesOf(pkgs[i]))
    ensures PackagesAnnotations(pkgs[..i + 1], changedFiles) ==
            PackagesAnnotations(pkgs[..i], changedFiles) + FilesAnnotations(pkgs[i], SourceFilesOf(pkgs[i]), changedFiles)
  {
    assert pkgs[..i + 1][..i] == pkgs[..i];
  }

  /** `FileAnnotations` by the two outcomes of the gate. */
  lemma FileAnnotationsCases(p: Package, s: SourceFile, changedFiles: seq<string>)
    ensures var githubFile := ChangedFile(changedFiles, SuffixOf(p, s));
            var fileCoverage := FileCoverage(Missed(s), Covered(s));
            FileAnnotations(p, s, changedFiles) ==
              if githubFile.Some? && fileCoverage < CoverageGate
              then [DropAnnotation(githubFile.value, fileCoverage, s.name)] + RangeAnnotations(githubFile.value, MissedRanges(LinesOf(s)))
              else []
  {
  }

  /** The range annotations of one more range. */
  lemma RangeAnnotationsSnoc(path: string, rs: seq<MissedRange>, k: nat)
    requires k < |rs|
    ensures RangeAnnotations(path, rs[..k + 1]) == RangeAnnotations(path, rs[..k]) + [RangeAnnotation(path, rs[k])]
  {
  }

  /**
   * One package `com/acme` with one file `Foo.kt`, one line missed and one
   * covered, and the file among the changed ones: coverage 50% triggers the
   * drop annotation and one single-line annotation; the total is 0.5.
   */
  lemma SampleXmlReport(changedFiles: seq<string>, file: SourceFile, report: Report)
    requires changedFiles == ["README.md", "app/src/main/kotlin/com/acme/Foo.kt"]
    requires file == SourceFile(Some("Foo.kt"),
                                Some([Line(Int(3), None, Some(Int(0)), None, None),
                                      Line(Int(4), None, Some(Int(2)), None, None)]),
                                Some([Counter(Some("INSTRUCTION"), Int(7), Int(0)),
                                      Counter(Some("LINE"), Int(1), Int(1))]))
    requires report == Report(Some("app"), Some([Package(Some("com/acme"), None, Some([file]), None)]), None)
    ensures CoverageXml(report, changedFiles) ==
            TotalCoverageInfo(0.5, [
              DropAnnotation("app/src/main/kotlin/com/acme/Foo.kt", 50.0, Some("Foo.kt")),
              Annotation("app/src/main/kotlin/com/acme/Foo.kt", Int(3), Int(3), Failure, 0.0, MissedOnLine(Int(3)))])
  {
    var pkg := Package(Some("com/acme"), None, Some([file]), None);
    var path := changedFiles[1];
    var anns := [DropAnnotation(path, 50.0, Some("Foo.kt")), Annotation(path, Int(3), Int(3), Failure, 0.0, MissedOnLine(Int(3)))];
    SampleXmlLines(LinesOf(file));
    SampleXmlCounters(file.counters.value);
    assert SuffixOf(pkg, file) == "com/acme/Foo.kt";
    SampleXmlLookup(changedFiles, SuffixOf(pkg, file));
    SampleXmlFile(changedFiles, file, pkg, anns);
    assert [file][..0] == [];
    assert FilesAnnotations(pkg, [file], changedFiles) == anns;
    assert SumMissed([file]) == 1 && SumCovered([file]) == 1;
    var pkgs := PackagesOf(report);
    assert pkgs == [pkg] && pkgs[..0] == [];
    assert PackagesAnnotations(pkgs, changedFiles) == anns;
    assert TotalMissed(pkgs) == 1 && TotalCovered(pkgs) == 1;
    assert TotalCoverage(1, 1) == 0.5;
  }

  /** The file-level half of the sample: one missed line of two gives its two annotations. */
  lemma SampleXmlFile(changedFiles: seq<string>, file: SourceFile, pkg: Package, anns: seq<Annotation>)
    requires |changedFiles| == 2 && ChangedFile(changedFiles, SuffixOf(pkg, file)) == Some(changedFiles[1])
    requires LineCounter(file) == Some(Counter(Some("LINE"), Int(1), Int(1)))
    requires MissedRanges(LinesOf(file)) == [MissedRange(Int(3), Int(3))]
    requires anns == [DropAnnotation(changedFiles[1], 50.0, file.name),
                      Annotation(changedFiles[1], Int(3), Int(3), Failure, 0.0, MissedOnLine(Int(3)))]
    ensures Missed(file) == 1 && Covered(file) == 1
    ensures FileAnnotations(pkg, file, changedFiles) == anns
  {
    var path := changedFiles[1];
    assert FileCoverage(1, 1) == 50.0;
    assert RangeAnnotations(path, [MissedRange(Int(3), Int(3))]) ==
           [Annotation(path, Int(3), Int(3), Failure, 0.0, MissedOnLine(Int(3)))];
  }

  lemma SampleXmlCounters(cs: seq<Counter>)
    requires cs == [Counter(Some("INSTRUCTION"), Int(7), Int(0)), Counter(Some("LINE"), Int(1), Int(1))]
    ensures Find(cs, IsLineCounter) == Some(cs[1])
  {
    assert !IsLineCounter(cs[0]) && IsLineCounter(cs[1]);
  }

  lemma SampleXmlLines(lines: seq<Line>)
    requires lines == [Line(Int(3), None, Some(Int(0)), None, None), Line(Int(4), None, Some(Int(2)), None, None)]
    ensures MissedRanges(lines) == [MissedRange(Int(3), Int(3))]
  {
    assert lines[..0] == [];
    OpenRun(lines, 0);
    SkipLine(lines, 1);
    assert lines[..2] == lines;
  }

  lemma SampleXmlLookup(changedFiles: seq<string>, suffix: string)
    requires changedFiles == ["README.md", "app/src/main/kotlin/com/acme/Foo.kt"]
    requires suffix == "com/acme/Foo.kt"
    ensures ChangedFile(changedFiles, suffix) == Some(changedFiles[1])
  {
    assert !EndsWith(changedFiles[0], suffix);
    assert EndsWith(changedFiles[1], suffix);
  }

  /**
   * The body of the inner loop of `computeCoverageXML` after the counts: look
   * up the changed file, apply the gate, push the drop annotation, group the
   * missed lines and push one annotation per range.
   */
  method AnnotateSourceFile(pkg: Package, sourceFile: SourceFile, changedFiles: seq<string>)
    returns (annotations: seq<Annotation>)
    ensures annotations == FileAnnotations(pkg, sourceFile, changedFiles)
  {
    annotations := [];
    var fileCoverage := FileCoverage(Missed(sourceFile), Covered(sourceFile));
    FileAnnotationsCases(pkg, sourceFile, changedFiles);
    var githubFile := ChangedFile(changedFiles, SuffixOf(pkg, sourceFile));
    if githubFile.Some? && fileCoverage < CoverageGate {
      annotations := [DropAnnotation(githubFile.value, fileCoverage, sourceFile.name)];
      var missedRanges := GroupMissedLines(LinesOf(sourceFile));
      for k := 0 to |missedRanges|
        invariant annotations == [DropAnnotation(githubFile.value, fileCoverage, sourceFile.name)] +
                                 RangeAnnotations(githubFile.value, missedRanges[..k])
      {
        RangeAnnotationsSnoc(githubFile.value, missedRanges, k);
        annotations := annotations + [RangeAnnotation(githubFile.value, missedRanges[k])];
      }
      assert missedRanges[..|missedRanges|] == missedRanges;
    }
  }

  /** `computeCoverageXML` from the typed report on, with the changed file names given. */
  method ComputeCoverageXml(report: Report, changedFiles: seq<string>) returns (info: TotalCoverageInfo)
    ensures info == CoverageXml(report, changedFiles)
  {
    var annotations: seq<Annotation> := [];
    var totalMissed: nat := 0;
    var totalCovered: nat := 0;
    var packages := PackagesOf(report);
    for i := 0 to |packages|
      invariant totalMissed == TotalMissed(packages[..i]) && totalCovered == TotalCovered(packages[..i])
      invariant annotations == PackagesAnnotations(packages[..i], changedFiles)
    {
      var pkg := packages[i];
      var sourceFiles := SourceFilesOf(pkg);
      PackagesStep(packages, i, changedFiles);
      ghost var before := annotations;
      for j := 0 to |sourceFiles|
        invariant totalMissed == TotalMissed(packages[..i]) + SumMissed(sourceFiles[..j])
        invariant totalCovered == TotalCovered(packages[..i]) + SumCovered(sourceFiles[..j])
        invariant annotations == before + FilesAnnotations(pkg, sourceFiles[..j], changedFiles)
      {
        var sourceFile := sourceFiles[j];
        ghost var previous := FilesAnnotations(pkg, sourceFiles[..j], changedFiles);
        FilesStep(pkg, sourceFiles, j, changedFiles);
        var missed := Missed(sourceFile);
        var covered := Covered(sourceFile);
        totalMissed := totalMissed + missed;
        totalCovered := totalCovered + covered;
        var fileAnnotations := AnnotateSourceFile(pkg, sourceFile, changedFiles);
        ConcatAssociative(before, previous, fileAnnotations);
        annotations := annotations + fileAnnotations;
      }
      assert sourceFiles[..|sourceFiles|] == sourceFiles;
    }
    assert packages[..|packages|] == packages;
    info := TotalCoverageInfo(TotalCoverage(totalMissed, totalCovered), annotations);
  }
}
