/** The output records of the JaCoCo pipeline (src/models/action.ts). */
module Action {
  import opened Js

  /** `annotation_level`; every emission path of the core uses `Failure`. */
  datatype Level = Failure | Notice | Warning

  /**
   * An annotation's message, kept as the values its text is built from:
   * the file percentage and file name of a "coverage dropped" message,
   * or the line (or first and last line) of a "missed coverage" message.
   */
  datatype Message =
    | CoverageDroppedOnTo(percent: real, fileName: Option<string>)
    | MissedOnLine(line: Num)
    | MissedOnLines(first: Num, last: Num)

  /** One check-run annotation; the line numbers are whatever the report's `nr` values were. */
  datatype Annotation = Annotation(
    path: string,
    startLine: Num,
    endLine: Num,
    level: Level,
    coverage: real,
    message: Message)

  /** The result of the JaCoCo pipeline: an aggregate fraction and the annotations. */
  datatype TotalCoverageInfo = TotalCoverageInfo(totalCoverage: real, annotations: seq<Annotation>)
}
