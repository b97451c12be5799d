/**
 * The typed JaCoCo report (src/models/jacoco.ts). Every field the conversion
 * copies from an attribute may be `undefined` at run time, whatever the
 * declared TypeScript type, so attribute-derived fields are `Option`s, and
 * numeric fields hold whatever `Number(...)` produced.
 */
module Jacoco {
  import opened Js

  /** `type` is copied verbatim from the attribute text (normally one of INSTRUCTION, BRANCH, LINE, COMPLEXITY, METHOD, CLASS). */
  datatype Counter = Counter(kind: Option<string>, missed: Num, covered: Num)

  /** A line: its number and the optional missed/covered instruction and branch counts. */
  datatype Line = Line(nr: Num, mi: Option<Num>, ci: Option<Num>, mb: Option<Num>, cb: Option<Num>)

  datatype SourceFile = SourceFile(
    name: Option<string>,
    lines: Option<seq<Line>>,
    counters: Option<seq<Counter>>)

  datatype Method = Method(
    name: Option<string>,
    desc: Option<string>,
    line: Option<Num>,
    counters: Option<seq<Counter>>)

  datatype Class = Class(
    name: Option<string>,
    sourceFileName: Option<string>,
    methods: Option<seq<Method>>,
    counters: Option<seq<Counter>>)

  datatype Package = Package(
    name: Option<string>,
    classes: Option<seq<Class>>,
    sourceFiles: Option<seq<SourceFile>>,
    counters: Option<seq<Counter>>)

  datatype Report = Report(
    name: Option<string>,
    packages: Option<seq<Package>>,
    counters: Option<seq<Counter>>)
}
