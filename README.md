# action-coverage-check, modelled in Dafny

action-coverage-check is a GitHub Action. It reads a coverage report and turns
it into check-run annotations: one failure annotation per run of missed lines,
plus one "coverage dropped" annotation per affected file. This project models the
Action's two pipelines and the conversion they depend on, working from values
that are already parsed:

- **JSON pipeline** (`ComputeCoverage`, src/computeCoverage.ts).
  - Each input file carries a sequence of markers, one per line. A marker is
    `null` (the line is not executable) or an execution count.
  - Only files with at least one `0` marker are kept.
  - For each kept file the result lists every maximal run of `0` markers as a
    1-based line range, then one drop annotation on line 1 with the file's
    percentage.
  - The percentage is `(nulls - zeros) / nulls * 100`, or 100 when there are no
    nulls, exactly as the code computes it.
  - The index scan is `ScanMissedRanges`, and its inner `while` is the method
    `RunEnd` that it calls. The scan is proved equal to the line-by-line
    definition `MissedRanges`. That definition's
    ranges are proved to be exactly the maximal runs of zeros.
- **JaCoCo pipeline** (`ComputeCoverageXml`, src/computeCoverageXML.ts).
  - It works on the typed report (`Jacoco`, src/models/jacoco.ts) and the
    pull request's changed file names, as the one page of names (30 by
    default) that the unpaginated `pulls.listFiles` call returns.
  - A file's percentage comes from its first `LINE` counter.
  - The missed and covered totals are summed over every source file.
  - A source file is annotated only when two conditions hold:
    - some changed file name ends with `package/file`;
    - the file's coverage is below 90.
  - An annotated file gets first the drop annotation, then one annotation per
    range of `ci === 0` lines.
  - The grouping loop is the `rangeStart`/`prevNr` state machine, both as the
    method `GroupMissedLines` and as the line-by-line definition `MissedRanges`.
    A gap in `nr` closes a range, and so does a line that is not missed.
- **Conversion** (`JsonObjectToReport`, src/util/jsonObjectToReport.ts).
  - Maps the attribute tree an XML parser produces (a `$` attribute map plus
    child lists) to the typed report.
  - The conversion fails exactly when an element it reads has no `$` map.
  - `RenderReport` goes the other way. Converting its output gives the report
    back, so every typed report can be reached and its fields survive the round
    trip. The conversion itself drops other tags and attributes, and reads
    texts such as `"7"` and `"007"` alike.
- **JavaScript semantics** (`Js`).
  - `Number(text)` is `NaN` or a non-negative integer. Lists, strings and
    `undefined` are modelled too.
  - `===`, `|| 0`, `Array.prototype.find`, `String.prototype.endsWith` and
    template interpolation of `undefined` are written out.
- **Small pieces**.
  - `Action` holds the annotation records of src/models/action.ts.
  - `Ratio` holds the facts about quotients that both percentage formulas use.
  - `CheckRun` has the two decisions src/main.ts takes from the annotations.

Percentages are exact `real`s. Messages are datatypes that carry the numbers
they print.

## Model

| member | source | states |
|---|---|---|
| Js.ToNumber | src/util/jsonObjectToReport.ts:20 | `Number(x)` is a number exactly when `x` is a digit string (`""` gives 0); `undefined` and any other text give `NaN` |
| Js.NumberOfDecimal | src/util/jsonObjectToReport.ts:35-36 | the decimal text of any count reads back as that count |
| Js.Find | src/computeCoverageXML.ts:48-50 | `find` returns the first element satisfying the predicate, and `undefined` exactly when none does |
| JsonObjectToReport.OptionalNumberCases | src/util/jsonObjectToReport.ts:12-24 | absent and `""` give `undefined`; `"0"` gives 0 (a non-empty string is truthy); a decimal text gives its value |
| JsonObjectToReport.MapEach | src/util/jsonObjectToReport.ts:4-37 | `map` with a converter that may throw succeeds exactly when every element converts; the result keeps length and order |
| JsonObjectToReport.OptionalMap | src/util/jsonObjectToReport.ts:4-37 | `xs?.map(f)` leaves an absent list `undefined` and maps a present one element by element, with the same length and order |
| JsonObjectToReport.GetCounter | src/util/jsonObjectToReport.ts:32-38 | the counter list is absent exactly when the element has no `counter` children; otherwise it has their number and order, with `type` copied and `missed`/`covered` converted by `Number` |
| JsonObjectToReport.ConvertLine | src/util/jsonObjectToReport.ts:19-25 | a line converts exactly when it has attributes; `nr` is the value of its digit string and `NaN` otherwise; each of `mi`, `ci`, `mb` and `cb` is `undefined` exactly when its attribute is absent or empty, and otherwise is read the same way as `nr` |
| JsonObjectToReport.GetPackage | src/util/jsonObjectToReport.ts:3-30 | the package list is absent exactly when there are no `package` children; otherwise it has their number and order, each converted in turn |
| JsonObjectToReport.ConvertObjToReport | src/util/jsonObjectToReport.ts:40-46 | a root without attributes fails; otherwise the report converts exactly when every `package` child converts and every `counter` child has attributes; the name is the root's `name` attribute; packages and counters are the root's children of those tags, converted in order, and absent exactly when there are none |
| JsonObjectToReport.ConversionSucceedsIffAttributed | src/util/jsonObjectToReport.ts:3-46 | the conversion succeeds exactly when the root and every package, class, method, source file, line and counter element below it has a `$` map; one element without it makes the whole conversion fail with the TypeError |
| JsonObjectToReport.CounterRoundTrip | src/util/jsonObjectToReport.ts:32-37 | converting a rendered counter gives the counter back |
| JsonObjectToReport.LineRoundTrip | src/util/jsonObjectToReport.ts:19-25 | converting a rendered line gives the line back, optional fields included |
| JsonObjectToReport.MethodRoundTrip | src/util/jsonObjectToReport.ts:9-14 | converting a rendered method gives it back, including its optional `line` |
| JsonObjectToReport.ClassRoundTrip | src/util/jsonObjectToReport.ts:6-16 | converting a rendered class gives it back, methods in order |
| JsonObjectToReport.SourceFileRoundTrip | src/util/jsonObjectToReport.ts:17-27 | converting a rendered source file gives it back, lines in order |
| JsonObjectToReport.PackageRoundTrip | src/util/jsonObjectToReport.ts:4-29 | converting a rendered package gives it back, classes and source files in order |
| JsonObjectToReport.ReportRoundTrip | src/util/jsonObjectToReport.ts:40-46 | converting a rendered report gives the report back: every typed report is reachable, and all its fields survive rendering then converting |
| ComputeCoverage.CountZeros | src/computeCoverage.ts:36-38 | the number of `0` markers is at most the line count, and 0 exactly when no marker is `0` |
| ComputeCoverage.CountNulls | src/computeCoverage.ts:39-41 | the number of `null` markers is at most the line count, and 0 exactly when no marker is `null` |
| ComputeCoverage.ZerosAndNullsBounded | src/computeCoverage.ts:36-41 | zeros plus nulls never exceed the line count |
| ComputeCoverage.CoveragePercent | src/computeCoverage.ts:42-43 | the percentage never exceeds 100; it is exactly 100 when there are no nulls or no zeros; it is negative exactly when there are nulls and zeros outnumber them |
| ComputeCoverage.NegativePercentExample | src/computeCoverage.ts:42-43 | markers `[0, 0, null]` give -100 |
| ComputeCoverage.FilesWithMissedLines | src/computeCoverage.ts:29-34 | a file is kept exactly when it has a `0` marker; the kept files are no more than the input |
| ComputeCoverage.FilesWithMissedLinesAppend | src/computeCoverage.ts:29-34 | the filter keeps input order: filtering `a + b` is filtering `a`, then `b` |
| ComputeCoverage.MissedRanges | src/computeCoverage.ts:46-70 | a run that ends at the last marker ends at the last line; otherwise the last range ends before it |
| ComputeCoverage.MissedRangesAreMaximalRuns | src/computeCoverage.ts:46-70 | every range satisfies `1 <= start <= end <= length` and holds only `0` markers; neighbouring markers are not `0`; ranges ascend without touching; every `0` marker is in exactly one range |
| ComputeCoverage.MissedRangesCountZeros | src/computeCoverage.ts:46-70 | the ranges cover as many lines as there are `0` markers |
| ComputeCoverage.RunEnd | src/computeCoverage.ts:51-58 | from a `0` marker whose predecessor is not `0`, the inner `while` stops at the last `0` of the run, and that run is the one range `MissedRanges` appends for it |
| ComputeCoverage.ScanMissedRanges | src/computeCoverage.ts:46-71 | the index scan, with its inner `while` and its index reassignment, emits exactly the annotations of `MissedRanges` |
| ComputeCoverage.FileAnnotationsShape | src/computeCoverage.ts:35-84 | a kept file yields ranges + 1 annotations, all failures on its own path; the range annotations are maximal zero runs; the last is the drop on line 1 with the file's percentage |
| ComputeCoverage.CoverageAnnotationsCompose | src/computeCoverage.ts:29-84 | the result for `a + b` is the result for `a`, then `b`; one file contributes its annotations exactly when it has a missed line |
| ComputeCoverage.ComputeCoverage | src/computeCoverage.ts:21-87 | the filter-then-annotate loop returns exactly the specified annotation list |
| ComputeCoverage.SampleFileFacts | src/computeCoverage.ts:36-70 | markers `[null,1,1,0,1,null,null]` have one missed range 4–4, one zero, three nulls and percentage 200/3 |
| ComputeCoverage.SampleReport | __tests__/main.test.ts:26-44 | the test's three files yield the range annotation 4–4, then the drop on line 1, both for `mockFile1.ts` |
| ComputeCoverageXml.LineCounter | src/computeCoverageXML.ts:36-39 | the first counter of type `LINE`, with no `LINE` counter before it; `undefined` exactly when there is none |
| ComputeCoverageXml.LineCounts | src/computeCoverageXML.ts:36-39 | with no counters or no `LINE` counter, missed and covered are 0; otherwise they are the first `LINE` counter's counts, with `NaN` read as 0 |
| ComputeCoverageXml.FileCoverage | src/computeCoverageXML.ts:40-41 | the file percentage lies in [0, 100]; it is 0 exactly when nothing is covered, and 100 exactly when lines are covered and none is missed |
| ComputeCoverageXml.TotalCoverage | src/computeCoverageXML.ts:108-110 | the total is a fraction in [0, 1], 1 when no line is counted, and otherwise the file formula divided by 100 |
| ComputeCoverageXml.TotalsAppend | src/computeCoverageXML.ts:33-45 | the missed and covered totals add up over packages laid end to end |
| ComputeCoverageXml.TotalIgnoresGate | src/computeCoverageXML.ts:33-52 | the totals count every file before the gate, so the changed files do not affect the total coverage |
| ComputeCoverageXml.ChangedFile | src/computeCoverageXML.ts:48-50 | the first changed file name that ends with the suffix, or `undefined` exactly when none does |
| ComputeCoverageXml.MissedRanges | src/computeCoverageXML.ts:63-86 | when the last line is missed, the last range ends at its `nr` |
| ComputeCoverageXml.GroupMissedLines | src/computeCoverageXML.ts:63-86 | the `rangeStart`/`prevNr` state machine and its final push yield exactly `MissedRanges` |
| ComputeCoverageXml.RangesEndBelow | src/computeCoverageXML.ts:63-86 | for increasing `nr`, no range ends past the last line's `nr`, and every range ends before it unless that line is missed |
| ComputeCoverageXml.MissedRangesSeparated | src/computeCoverageXML.ts:69-81 | for increasing `nr`, ranges ascend and never touch: a gap or a line that is not missed closes a range |
| ComputeCoverageXml.MissedRangesAreMissed | src/computeCoverageXML.ts:63-86 | for increasing `nr`, every range has `start <= end`, and every number in it belongs to a listed line with `ci === 0` |
| ComputeCoverageXml.MissedRangesCoverMissed | src/computeCoverageXML.ts:63-86 | for increasing `nr`, every missed line lies in some range |
| ComputeCoverageXml.MissedRangesPartition | src/computeCoverageXML.ts:63-86 | for increasing `nr`, the ranges hold only missed lines, ascend without touching, and every missed line is in exactly one range |
| ComputeCoverageXml.GroupingExample | src/computeCoverageXML.ts:69-86 | lines 1, 2 missed, 3 covered, 4 missed, 6 missed, 7 without `ci` give ranges 1–2, 4–4 and 6–6 |
| ComputeCoverageXml.RangeMessageNamesOneLine | src/computeCoverageXML.ts:90-93 | for increasing `nr`, a range's message names a single line exactly when one listed line falls in the range, and that line is a listed missed line |
| ComputeCoverageXml.FileAnnotationsShape | src/computeCoverageXML.ts:41-103 | a file is annotated exactly when it matches a changed file and is below 90 (a matching file without counted lines always is); the first annotation is the drop on line 1 with the file's percentage, on the first matching path; then come the ranges in order with coverage 0, all failures |
| ComputeCoverageXml.AnnotationsOnChangedFiles | src/computeCoverageXML.ts:33-106 | every annotation is a failure on the name of a changed file |
| ComputeCoverageXml.AnnotateSourceFile | src/computeCoverageXML.ts:47-104 | the loop body after the counts pushes exactly the file's specified annotations |
| ComputeCoverageXml.ComputeCoverageXml | src/computeCoverageXML.ts:8-116 | the nested loops return exactly the specified total and annotation list |
| ComputeCoverageXml.SampleXmlReport | src/computeCoverageXML.ts:33-116 | one file with one line missed and one covered, matching the second changed file: total 0.5, then the drop at 50% and a single-line annotation |
| CheckRun.PostedAnnotations | src/main.ts:52 | the posted annotations are the first `min(50, n)` annotations, in order |
| CheckRun.SuccessIffNoMissedLines | src/main.ts:19-34 | through the JSON pipeline, the run succeeds exactly when no file has a `0` marker |

## Left out

- Reading the report file, `JSON.parse` and the xml2js parser are left out. The model starts from the parsed file list and from the parsed element tree.
- The octokit `pulls.listFiles` call and the GitHub `context` are left out. The changed file names are a parameter.
- ComputeCoverageXml.ComputeCoverageXml: the `changedFiles` parameter stands for the single page of names that `pulls.listFiles` returns. The call sets no `per_page` and does not paginate, so by GitHub's default it returns at most 30 names. In the source, a file whose only matching changed file is the 31st or later is never annotated. The model accepts a list of any length and does not enforce that cap.
- The entry point's GitHub plumbing is left out: inputs, token check, `checks.create`, comment listing, deletion and creation, and `setFailed`. Only its two decisions on the annotation list are modelled.
- `toFixed(2)` rendering and the message texts are left out. Messages are datatypes that carry the numbers they print; line numbers appear unformatted.
- Floating point is left out. Percentages are exact reals, so rounding of `/` and `* 100` is not modelled.
- Js.ToNumber: non-digit texts all read as `NaN`. JavaScript also accepts signs, decimals, exponents, hexadecimal, surrounding whitespace and `Infinity`. Report attributes hold decimal counts, so these forms do not arise.
- Numbers are `NaN` or non-negative integers. Negative and fractional numbers never come out of the modelled conversion.
- A coverage marker is `null` or a non-negative count. Other JSON values in `coverage` are not modelled.
- Comparing against a baseline report is left out, because no source implements it. __tests__/main.test.ts:66 calls `computeCoverage` with two paths and expects the drop annotation first (__tests__/main.test.ts:69-74). The code takes one path and emits the drop annotation after the range annotations (src/computeCoverage.ts:60-83). The model follows the code.
- The test that expects a JSON syntax error for an empty path (__tests__/main.test.ts:4-10) is left out. It depends on the mocked file read.
- Promise rejection and exception propagation are left out. Apart from the missing-attribute error of the conversion, nothing in the core throws on well-typed input.
- ComputeCoverageXml.MissedRangesPartition, ComputeCoverageXml.RangesEndBelow, ComputeCoverageXml.MissedRangesSeparated, ComputeCoverageXml.MissedRangesAreMissed, ComputeCoverageXml.MissedRangesCoverMissed and ComputeCoverageXml.RangeMessageNamesOneLine: proved only for lines whose `nr` values are numbers that strictly increase, as JaCoCo writes them. For other orders the grouping is still modelled exactly, by `GroupMissedLines` and `MissedRanges`.
- xml2js turns an element with text and no attributes into a bare string. Such tree shapes are not modelled; only elements with or without a `$` map are.
