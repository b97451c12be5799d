/**
 * Conversion of the generic element tree an XML parser such as xml2js produces
 * into the typed JaCoCo report (src/util/jsonObjectToReport.ts).
 *
 * An element carries its attributes under `$` (absent when the element has
 * none) and its child elements as lists keyed by tag name. Reading an attribute
 * of an element without `$` throws a TypeError in the source; here that is the
 * error `MissingAttributes`.
 */
module JsonObjectToReport {
  import opened Js
  import opened Jacoco

  datatype Element = Element(attrs: Option<map<string, string>>, children: map<string, seq<Element>>)

  /** The TypeError raised by `x['$'].name` when `x['$']` is undefined. */
  datatype ConvertError = MissingAttributes

  datatype Result<+T> = Ok(value: T) | Err(error: ConvertError) {
    predicate IsFailure() { Err? }
    function PropagateFailure<U>(): Result<U> requires Err? { Err(error) }
    function Extract(): T requires Ok? { value }
  }

  /** `e['$'][key]`: the attribute text, or `undefined` when the attribute is absent. */
  function Attr(attrs: map<string, string>, key: string): (r: Option<string>)
    ensures r.Some? <==> key in attrs
  {
    if key in attrs then Some(attrs[key]) else None
  }

  /** `e[tag]`: the list of children with that tag, or `undefined` when there are none. */
  function Children(e: Element, tag: string): (r: Option<seq<Element>>)
    ensures r.Some? <==> tag in e.children
  {
    if tag in e.children then Some(e.children[tag]) else None
  }

  /** `s ? Number(s) : undefined`: an absent or empty attribute gives `undefined`. */
  function OptionalNumber(x: Option<string>): (r: Option<Num>)
    ensures r.None? <==> x.None? || x.value == ""
    ensures r.Some? ==> r.value == ToNumber(x)
  {
    if x.Some? && x.value != "" then Some(ToNumber(x)) else None
  }

  /** `xs.map(f)` where `f` may throw: the first failure is the result. */
  function MapEach<T>(xs: seq<Element>, f: Element -> Result<T>): (r: Result<seq<T>>)
    ensures r.Ok? <==> forall i :: 0 <= i < |xs| ==> f(xs[i]).Ok?
    ensures r.Ok? ==> |r.value| == |xs| && forall i :: 0 <= i < |xs| ==> f(xs[i]) == Ok(r.value[i])
    decreases |xs|
  {
    if xs == [] then Ok([])
    else
      var head :- f(xs[0]);
      var tail :- MapEach(xs[1..], f);
      assert forall i :: 1 <= i < |xs| ==> xs[1..][i - 1] == xs[i];
      Ok([head] + tail)
  }

  /** `xs?.map(f)`: an absent list stays `undefined`, a present one is mapped element by element. */
  function OptionalMap<T>(xs: Option<seq<Element>>, f: Element -> Result<T>): (r: Result<Option<seq<T>>>)
    ensures r.Ok? <==> xs.None? || forall i :: 0 <= i < |xs.value| ==> f(xs.value[i]).Ok?
    ensures r.Ok? ==> (r.value.None? <==> xs.None?)
    ensures r.Ok? && xs.Some? ==>
              |r.value.value| == |xs.value| &&
              forall i :: 0 <= i < |xs.value| ==> f(xs.value[i]) == Ok(r.value.value[i])
  {
    match xs
    case None => Ok(None)
    case Some(list) =>
      var mapped :- MapEach(list, f);
      Ok(Some(mapped))
  }

  function ConvertCounter(e: Element): Result<Counter> {
    match e.attrs
    case None => Err(MissingAttributes)
    case Some(a) => Ok(Counter(Attr(a, "type"), ToNumber(Attr(a, "missed")), ToNumber(Attr(a, "covered"))))
  }

  /** `getCounter`: the element's `counter` children as typed counters. */
  function GetCounter(e: Element): (r: Result<Option<seq<Counter>>>)
    ensures r.Ok? ==> (r.value.None? <==> "counter" !in e.children)
    ensures r.Ok? && r.value.Some? ==>
              |r.value.value| == |e.children["counter"]| &&
              forall i :: 0 <= i < |r.value.value| ==>
                var a := e.children["counter"][i].attrs;
                a.Some? &&
                r.value.value[i] == Counter(Attr(a.value, "type"),
                                            ToNumber(Attr(a.value, "missed")),
                                            ToNumber(Attr(a.value, "covered")))
  {
    OptionalMap(Children(e, "counter"), ConvertCounter)
  }

  /** Attribute `key` of `a`, read with `Number`, is `x`: the value of a digit string, and `NaN` for anything else or nothing. */
  predicate NumberAttr(a: map<string, string>, key: string, x: Num) {
    (key in a && IsDigits(a[key]) ==> x == Int(DecimalValue(a[key]))) &&
    (!(key in a && IsDigits(a[key])) ==> x == NaN)
  }

  /** Attribute `key` of `a`, read with the absent-or-empty rule, is `x`. */
  predicate OptionalNumberAttr(a: map<string, string>, key: string, x: Option<Num>) {
    (x.None? <==> key !in a || a[key] == "") &&
    (key in a && a[key] != "" ==> NumberAttr(a, key, x.value))
  }

  /**
   * A line converts exactly when it has attributes. Its `nr` is always read
   * with `Number`; each of `mi`, `ci`, `mb` and `cb` is `undefined` when the
   * attribute is absent or empty, and otherwise is read with `Number`.
   */
  function ConvertLine(e: Element): (r: Result<Line>)
    ensures r.Ok? <==> e.attrs.Some?
    ensures r.Ok? ==> var a := e.attrs.value;
                      NumberAttr(a, "nr", r.value.nr) &&
                      OptionalNumberAttr(a, "mi", r.value.mi) && OptionalNumberAttr(a, "ci", r.value.ci) &&
                      OptionalNumberAttr(a, "mb", r.value.mb) && OptionalNumberAttr(a, "cb", r.value.cb)
  {
    match e.attrs
    case None => Err(MissingAttributes)
    case Some(a) =>
      Ok(Line(ToNumber(Attr(a, "nr")),
              OptionalNumber(Attr(a, "mi")), OptionalNumber(Attr(a, "ci")),
              OptionalNumber(Attr(a, "mb")), OptionalNumber(Attr(a, "cb"))))
  }

  function ConvertMethod(e: Element): Result<Method> {
    match e.attrs
    case None => Err(MissingAttributes)
    case Some(a) =>
      var counters :- GetCounter(e);
      Ok(Method(Attr(a, "name"), Attr(a, "desc"), OptionalNumber(Attr(a, "line")), counters))
  }

  function ConvertClass(e: Element): Result<Class> {
    match e.attrs
    case None => Err(MissingAttributes)
    case Some(a) =>
      var methods :- OptionalMap(Children(e, "method"), ConvertMethod);
      var counters :- GetCounter(e);
      Ok(Class(Attr(a, "name"), Attr(a, "sourcefilename"), methods, counters))
  }

  function ConvertSourceFile(e: Element): Result<SourceFile> {
    match e.attrs
    case None => Err(MissingAttributes)
    case Some(a) =>
      var lines :- OptionalMap(Children(e, "line"), ConvertLine);
      var counters :- GetCounter(e);
      Ok(SourceFile(Attr(a, "name"), lines, counters))
  }

  function ConvertPackage(e: Element): Result<Package> {
    match e.attrs
    case None => Err(MissingAttributes)
    case Some(a) =>
      var classes :- OptionalMap(Children(e, "class"), ConvertClass);
      var sourceFiles :- OptionalMap(Children(e, "sourcefile"), ConvertSourceFile);
      var counters :- GetCounter(e);
      Ok(Package(Attr(a, "name"), classes, sourceFiles, counters))
  }

  /** `getPackage`: the element's `package` children as typed packages. */
  function GetPackage(e: Element): (r: Result<Option<seq<Package>>>)
    ensures r.Ok? ==> (r.value.None? <==> "package" !in e.children)
    ensures r.Ok? && r.value.Some? ==>
              |r.value.value| == |e.children["package"]| &&
              forall i :: 0 <= i < |r.value.value| ==>
                ConvertPackage(e.children["package"][i]) == Ok(r.value.value[i])
  {
    OptionalMap(Children(e, "package"), ConvertPackage)
  }

  /**
   * `convertObjToReport`: the report element as a typed report. A root without
   * attributes fails. Otherwise the name is the root's `name` attribute, and
   * the report's packages and counters are the root's `package` and `counter`
   * children converted one by one, in order, absent when there are none.
   */
  function ConvertObjToReport(e: Element): (r: Result<Report>)
    ensures e.attrs.None? ==> r == Err(MissingAttributes)
    ensures r.Ok? <==>
              e.attrs.Some? &&
              ("package" in e.children ==>
                 forall i :: 0 <= i < |e.children["package"]| ==> ConvertPackage(e.children["package"][i]).Ok?) &&
              ("counter" in e.children ==>
                 forall i :: 0 <= i < |e.children["counter"]| ==> e.children["counter"][i].attrs.Some?)
    ensures r.Ok? ==> ("name" in e.attrs.value <==> r.value.name.Some?) &&
                      (r.value.name.Some? ==> r.value.name.value == e.attrs.value["name"])
    ensures r.Ok? ==> (r.value.packages.None? <==> "package" !in e.children) &&
                      (r.value.packages.Some? ==>
                         |r.value.packages.value| == |e.children["package"]| &&
                         forall i :: 0 <= i < |e.children["package"]| ==>
                           ConvertPackage(e.children["package"][i]) == Ok(r.value.packages.value[i]))
    ensures r.Ok? ==> (r.value.counters.None? <==> "counter" !in e.children) &&
                      (r.value.counters.Some? ==>
                         |r.value.counters.value| == |e.children["counter"]| &&
                         forall i :: 0 <= i < |e.children["counter"]| ==>
                           ConvertCounter(e.children["counter"][i]) == Ok(r.value.counters.value[i]))
  {
    match e.attrs
    case None => Err(MissingAttributes)
    case Some(a) =>
      var packages :- GetPackage(e);
      var counters :- GetCounter(e);
      Ok(Report(Attr(a, "name"), packages, counters))
  }

  // ---------------------------------------------------------------------
  // The other direction: rendering a typed report as an element tree.
  // Converting the rendering gives back the report, so every typed report is
  // reachable and each of its fields survives a render-then-convert trip.
  // (The conversion itself is not injective: it ignores other tags and
  // attributes, and distinct texts such as "7" and "007" read alike.)
  // ---------------------------------------------------------------------

  /** Adds the attribute `key` when `x` is defined. */
  function WithAttr(m: map<string, string>, key: string, x: Option<string>): map<string, string> {
    if x.Some? then m[key := x.value] else m
  }

  /** Adds the child list `tag` when `xs` is defined. */
  function WithChildren(m: map<string, seq<Element>>, tag: string, xs: Option<seq<Element>>): map<string, seq<Element>> {
    if xs.Some? then m[tag := xs.value] else m
  }

  /** Attribute text that `Number` reads back as `x`; `NaN` is an absent attribute. */
  function NumberText(x: Num): Option<string> {
    match x
    case NaN => None
    case Int(n) => Some(Decimal(n))
  }

  /** Attribute text that the absent-or-empty rule reads back as `x`. */
  function OptionalNumberText(x: Option<Num>): Option<string> {
    match x
    case None => None
    case Some(NaN) => Some("NaN")
    case Some(Int(n)) => Some(Decimal(n))
  }

  function RenderList<T>(xs: Option<seq<T>>, render: T -> Element): Option<seq<Element>> {
    match xs
    case None => None
    case Some(list) => Some(seq(|list|, i requires 0 <= i < |list| => render(list[i])))
  }

  function RenderCounter(c: Counter): Element {
    Element(Some(WithAttr(WithAttr(WithAttr(map[], "type", c.kind), "missed", NumberText(c.missed)),
                          "covered", NumberText(c.covered))),
            map[])
  }

  function RenderLine(l: Line): Element {
    Element(Some(WithAttr(WithAttr(WithAttr(WithAttr(WithAttr(map[],
              "nr", NumberText(l.nr)), "mi", OptionalNumberText(l.mi)), "ci", OptionalNumberText(l.ci)),
              "mb", OptionalNumberText(l.mb)), "cb", OptionalNumberText(l.cb))),
            map[])
  }

  function RenderMethod(m: Method): Element {
    Element(Some(WithAttr(WithAttr(WithAttr(map[], "name", m.name), "desc", m.desc), "line", OptionalNumberText(m.line))),
            WithChildren(map[], "counter", RenderList(m.counters, RenderCounter)))
  }

  function RenderClass(c: Class): Element {
    Element(Some(WithAttr(WithAttr(map[], "name", c.name), "sourcefilename", c.sourceFileName)),
            WithChildren(WithChildren(map[], "method", RenderList(c.methods, RenderMethod)),
                         "counter", RenderList(c.counters, RenderCounter)))
  }

  function RenderSourceFile(s: SourceFile): Element {
    Element(Some(WithAttr(map[], "name", s.name)),
            WithChildren(WithChildren(map[], "line", RenderList(s.lines, RenderLine)),
                         "counter", RenderList(s.counters, RenderCounter)))
  }

  function RenderPackage(p: Package): Element {
    Element(Some(WithAttr(map[], "name", p.name)),
            WithChildren(WithChildren(WithChildren(map[],
              "class", RenderList(p.classes, RenderClass)),
              "sourcefile", RenderList(p.sourceFiles, RenderSourceFile)),
              "counter", RenderList(p.counters, RenderCounter)))
  }

  function RenderReport(r: Report): Element {
    Element(Some(WithAttr(map[], "name", r.name)),
            WithChildren(WithChildren(map[], "package", RenderList(r.packages, RenderPackage)),
                         "counter", RenderList(r.counters, RenderCounter)))
  }

  /** Mapping a rendered list back element by element restores the list. */
  lemma OptionalMapOfRendered<T>(xs: Option<seq<T>>, render: T -> Element, convert: Element -> Result<T>)
    requires xs.Some? ==> forall i :: 0 <= i < |xs.value| ==> convert(render(xs.value[i])) == Ok(xs.value[i])
    ensures OptionalMap(RenderList(xs, render), convert) == Ok(xs)
  {
    if xs.Some? {
      var rendered := RenderList(xs, render).value;
      assert forall i :: 0 <= i < |rendered| ==> rendered[i] == render(xs.value[i]);
      var r := OptionalMap(RenderList(xs, render), convert);
      assert r.Ok?;
      assert r.value.value == xs.value;
    }
  }

  lemma NumberTextRoundTrip(x: Num)
    ensures ToNumber(NumberText(x)) == x
  {
    if x.Int? { NumberOfDecimal(x.value); }
  }

  lemma OptionalNumberTextRoundTrip(x: Option<Num>)
    ensures OptionalNumber(OptionalNumberText(x)) == x
  {
    match x
    case None =>
    case Some(NaN) =>
      assert !IsDigit("NaN"[0]);
    case Some(Int(n)) =>
      NumberOfDecimal(n);
      DecimalRoundTrip(n);
  }

  lemma CounterRoundTrip(c: Counter)
    ensures ConvertCounter(RenderCounter(c)) == Ok(c)
  {
    NumberTextRoundTrip(c.missed);
    NumberTextRoundTrip(c.covered);
  }

  lemma CountersRoundTrip(cs: Option<seq<Counter>>)
    ensures OptionalMap(RenderList(cs, RenderCounter), ConvertCounter) == Ok(cs)
  {
    if cs.Some? {
      forall i | 0 <= i < |cs.value| ensures ConvertCounter(RenderCounter(cs.value[i])) == Ok(cs.value[i]) {
        CounterRoundTrip(cs.value[i]);
      }
    }
    OptionalMapOfRendered(cs, RenderCounter, ConvertCounter);
  }

  lemma LineRoundTrip(l: Line)
    ensures ConvertLine(RenderLine(l)) == Ok(l)
  {
    NumberTextRoundTrip(l.nr);
    OptionalNumberTextRoundTrip(l.mi);
    OptionalNumberTextRoundTrip(l.ci);
    OptionalNumberTextRoundTrip(l.mb);
    OptionalNumberTextRoundTrip(l.cb);
  }

  lemma MethodRoundTrip(m: Method)
    ensures ConvertMethod(RenderMethod(m)) == Ok(m)
  {
    OptionalNumberTextRoundTrip(m.line);
    CountersRoundTrip(m.counters);
  }

  lemma ClassRoundTrip(c: Class)
    ensures ConvertClass(RenderClass(c)) == Ok(c)
  {
    if c.methods.Some? {
      forall i | 0 <= i < |c.methods.value| ensures ConvertMethod(RenderMethod(c.methods.value[i])) == Ok(c.methods.value[i]) {
        MethodRoundTrip(c.methods.value[i]);
      }
    }
    OptionalMapOfRendered(c.methods, RenderMethod, ConvertMethod);
    CountersRoundTrip(c.counters);
  }

  lemma SourceFileRoundTrip(s: SourceFile)
    ensures ConvertSourceFile(RenderSourceFile(s)) == Ok(s)
  {
    if s.lines.Some? {
      forall i | 0 <= i < |s.lines.value| ensures ConvertLine(RenderLine(s.lines.value[i])) == Ok(s.lines.value[i]) {
        LineRoundTrip(s.lines.value[i]);
      }
    }
    OptionalMapOfRendered(s.lines, RenderLine, ConvertLine);
    CountersRoundTrip(s.counters);
  }

  lemma PackageRoundTrip(p: Package)
    ensures ConvertPackage(RenderPackage(p)) == Ok(p)
  {
    if p.classes.Some? {
      forall i | 0 <= i < |p.classes.value| ensures ConvertClass(RenderClass(p.classes.value[i])) == Ok(p.classes.value[i]) {
        ClassRoundTrip(p.classes.value[i]);
      }
    }
    OptionalMapOfRendered(p.classes, RenderClass, ConvertClass);
    if p.sourceFiles.Some? {
      forall i | 0 <= i < |p.sourceFiles.value|
        ensures ConvertSourceFile(RenderSourceFile(p.sourceFiles.value[i])) == Ok(p.sourceFiles.value[i])
      {
        SourceFileRoundTrip(p.sourceFiles.value[i]);
      }
    }
    OptionalMapOfRendered(p.sourceFiles, RenderSourceFile, ConvertSourceFile);
    CountersRoundTrip(p.counters);
  }

  /** Every typed report is the conversion of its rendering. */
  lemma ReportRoundTrip(r: Report)
    ensures ConvertObjToReport(RenderReport(r)) == Ok(r)
  {
    if r.packages.Some? {
      forall i | 0 <= i < |r.packages.value| ensures ConvertPackage(RenderPackage(r.packages.value[i])) == Ok(r.packages.value[i]) {
        PackageRoundTrip(r.packages.value[i]);
      }
    }
    OptionalMapOfRendered(r.packages, RenderPackage, ConvertPackage);
    CountersRoundTrip(r.counters);
  }

  /** The three attribute cases of an optional number: absent, empty, and a count such as `"0"`. */
  lemma OptionalNumberCases(n: nat)
    ensures OptionalNumber(None) == None
    ensures OptionalNumber(Some("")) == None
    ensures OptionalNumber(Some(Decimal(n))) == Some(Int(n))
    ensures OptionalNumber(Some("0")) == Some(Int(0))
  {
    DecimalRoundTrip(n);
    NumberOfDecimal(n);
    assert Decimal(0) == "0";
    NumberOfDecimal(0);
  }

  // ---------------------------------------------------------------------
  // When the conversion fails: every element it reads must carry `$`.
  // ---------------------------------------------------------------------

  /** Every child of `e` with tag `tag` satisfies `p`; vacuous when there are none. */
  predicate EveryChild(e: Element, tag: string, p: Element -> bool) {
    tag in e.children ==> forall i :: 0 <= i < |e.children[tag]| ==> p(e.children[tag][i])
  }

  predicate Attributed(e: Element) {
    e.attrs.Some?
  }

  predicate MethodAttributed(e: Element) {
    Attributed(e) && EveryChild(e, "counter", Attributed)
  }

  predicate ClassAttributed(e: Element) {
    Attributed(e) && EveryChild(e, "method", MethodAttributed) && EveryChild(e, "counter", Attributed)
  }

  predicate SourceFileAttributed(e: Element) {
    Attributed(e) && EveryChild(e, "line", Attributed) && EveryChild(e, "counter", Attributed)
  }

  predicate PackageAttributed(e: Element) {
    Attributed(e) && EveryChild(e, "class", ClassAttributed) &&
    EveryChild(e, "sourcefile", SourceFileAttributed) && EveryChild(e, "counter", Attributed)
  }

  /** The root, and every package, class, method, source file, line and counter element below it, has `$`. */
  predicate ReportAttributed(e: Element) {
    Attributed(e) && EveryChild(e, "package", PackageAttributed) && EveryChild(e, "counter", Attributed)
  }

  /** `e[tag]?.map(f)` succeeds exactly when every child with that tag meets the converter's condition. */
  lemma OptionalMapOk<T>(e: Element, tag: string, f: Element -> Result<T>, p: Element -> bool)
    requires forall x :: f(x).Ok? <==> p(x)
    ensures OptionalMap(Children(e, tag), f).Ok? <==> EveryChild(e, tag, p)
  {
  }

  lemma CountersOk(e: Element)
    ensures GetCounter(e).Ok? <==> EveryChild(e, "counter", Attributed)
  {
    OptionalMapOk(e, "counter", ConvertCounter, Attributed);
  }

  lemma MethodOk(e: Element)
    ensures ConvertMethod(e).Ok? <==> MethodAttributed(e)
  {
    CountersOk(e);
  }

  lemma ClassOk(e: Element)
    ensures ConvertClass(e).Ok? <==> ClassAttributed(e)
  {
    forall x ensures ConvertMethod(x).Ok? <==> MethodAttributed(x) { MethodOk(x); }
    OptionalMapOk(e, "method", ConvertMethod, MethodAttributed);
    CountersOk(e);
  }

  lemma SourceFileOk(e: Element)
    ensures ConvertSourceFile(e).Ok? <==> SourceFileAttributed(e)
  {
    OptionalMapOk(e, "line", ConvertLine, Attributed);
    CountersOk(e);
  }

  lemma PackageOk(e: Element)
    ensures ConvertPackage(e).Ok? <==> PackageAttributed(e)
  {
    forall x ensures ConvertClass(x).Ok? <==> ClassAttributed(x) { ClassOk(x); }
    forall x ensures ConvertSourceFile(x).Ok? <==> SourceFileAttributed(x) { SourceFileOk(x); }
    OptionalMapOk(e, "class", ConvertClass, ClassAttributed);
    OptionalMapOk(e, "sourcefile", ConvertSourceFile, SourceFileAttributed);
    CountersOk(e);
  }

  /**
   * The conversion succeeds exactly when the root and every package, class,
   * method, source file, line and counter element it reads carries `$`; any
   * one of them without it makes the whole conversion fail with the source's
   * TypeError.
   */
  lemma ConversionSucceedsIffAttributed(e: Element)
    ensures ConvertObjToReport(e).Ok? <==> ReportAttributed(e)
    ensures !ReportAttributed(e) ==> ConvertObjToReport(e) == Err(MissingAttributes)
  {
    forall x ensures ConvertPackage(x).Ok? <==> PackageAttributed(x) { PackageOk(x); }
    OptionalMapOk(e, "package", ConvertPackage, PackageAttributed);
    CountersOk(e);
  }
}
