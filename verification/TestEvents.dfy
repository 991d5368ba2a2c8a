/** What a `go test -json` stream says: its tests in first-seen order with their results, and the
    failures outside them. */
module TestEvents {
  import opened NameOrder
  import opened Quarantine

  /** An event's action; every action that begins with "build-" but build-fail is OtherBuildAction. */
  datatype Action =
    | RunAction | OutputAction | PassAction | SkipAction | FailAction
    | OtherBuildAction | BuildFailAction | OtherAction | NoAction

  /** One line of the stream: blank, unparseable, or an event. */
  datatype Line =
    | Blank
    | NotJson
    | Event(action: Action, pkg: string, importPath: string, test: string, output: string)

  predicate IsBuildEvent(e: Line) {
    e.Event? && e.pkg == "" && e.importPath != "" && (e.action.OtherBuildAction? || e.action.BuildFailAction?)
  }

  predicate Malformed(e: Line) {
    e.NotJson? || (e.Event? && !IsBuildEvent(e) && (e.pkg == "" || e.action.NoAction?))
  }

  predicate WellFormed(e: Line) {
    e.Event? && !IsBuildEvent(e) && e.pkg != "" && !e.action.NoAction?
  }

  predicate BuildFails(e: Line) { IsBuildEvent(e) && e.action.BuildFailAction? }

  function IdOf(e: Line): string
    requires e.Event?
  {
    e.pkg + "::" + e.test
  }

  /** Add a name that is not there yet. */
  function Note(names: seq<string>, n: string): seq<string> {
    if n in names then names else names + [n]
  }

  /** What a stream leaves behind: its tests in first-seen order, those that failed, the packages
      with one that did, the packages heard outside their tests and the failed ones in first-seen
      order, the failed builds, and whether any line was refused. */
  datatype Marks = Marks(
    order: seq<string>, failed: set<string>, withFail: set<string>,
    seen: seq<string>, pkgs: seq<string>, builds: seq<string>, refused: bool)

  const UNMARKED := Marks([], {}, {}, [], [], [], false)

  function Mark(m: Marks, e: Line): Marks {
    if Malformed(e) then m.(refused := true)
    else if BuildFails(e) then m.(builds := m.builds + [e.importPath])
    else if !WellFormed(e) then m
    else if e.test != "" then
      m.(order := Note(m.order, IdOf(e)),
         failed := if e.action.FailAction? then m.failed + {IdOf(e)} else m.failed,
         withFail := if e.action.FailAction? then m.withFail + {e.pkg} else m.withFail)
    else
      m.(seen := if e.action.OutputAction? then Note(m.seen, e.pkg) else m.seen,
         pkgs := if e.action.FailAction? then Note(m.pkgs, e.pkg) else m.pkgs)
  }

  /** The marks of exactly the lines read. */
  function MarksOf(lines: seq<Line>): Marks {
    if lines == [] then UNMARKED else Mark(MarksOf(lines[..|lines| - 1]), lines[|lines| - 1])
  }

  /** What an event is about: a package outside its tests, or one test. */
  datatype Subject = Package(pkg: string) | Test(id: string)

  function SubjectOf(e: Line): Subject
    requires e.Event?
  {
    if e.test == "" then Package(e.pkg) else Test(IdOf(e))
  }

  predicate Concerns(e: Line, s: Subject) { WellFormed(e) && SubjectOf(e) == s }

  predicate Speaks(e: Line, s: Subject) { Concerns(e, s) && e.action.OutputAction? }

  /** Everything said about a subject, in stream order. */
  function TextOf(lines: seq<Line>, s: Subject): string {
    if lines == [] then ""
    else
      var before, e := TextOf(lines[..|lines| - 1], s), lines[|lines| - 1];
      if Speaks(e, s) then before + e.output else before
  }

  /** The last pass or skip of a test. */
  function Verdict(lines: seq<Line>, id: string): (v: Status)
    ensures !v.Failed?
  {
    if lines == [] then NoResult
    else
      var e := lines[|lines| - 1];
      if Concerns(e, Test(id)) && e.action.PassAction? then Passed
      else if Concerns(e, Test(id)) && e.action.SkipAction? then Skipped
      else Verdict(lines[..|lines| - 1], id)
  }

  /** A test's result: failed if it ever failed, else its last verdict, with all its output. */
  function TestOf(lines: seq<Line>, id: string): Result {
    Result(id, if id in MarksOf(lines).failed then Failed else Verdict(lines, id), TextOf(lines, Test(id)))
  }

  // First-seen order

  /** The order lists name each test and each package once. */
  lemma {:induction false} NamedOnce(lines: seq<Line>)
    ensures
      var m := MarksOf(lines);
      Distinct(m.order) && Distinct(m.seen) && Distinct(m.pkgs)
  {
    if lines != [] {
      NamedOnce(lines[..|lines| - 1]);
    }
  }

  /** They only grow at their end as more is read, so a name stands where it was first seen. */
  lemma {:induction false} OrderGrows(lines: seq<Line>, n: nat)
    requires n <= |lines|
    ensures
      var m, m' := MarksOf(lines[..n]), MarksOf(lines);
      m.order <= m'.order && m.seen <= m'.seen && m.pkgs <= m'.pkgs && m.builds <= m'.builds
    decreases |lines|
  {
    if n < |lines| {
      OrderGrows(lines[..|lines| - 1], n);
      assert lines[..|lines| - 1][..n] == lines[..n];
    } else {
      assert lines[..n] == lines;
    }
  }

  /** A test is listed exactly when some event is about it. */
  lemma {:induction false} OrderHas(lines: seq<Line>, id: string)
    ensures id in MarksOf(lines).order <==> exists i :: 0 <= i < |lines| && Concerns(lines[i], Test(id))
  {
    if lines != [] {
      var n := |lines| - 1;
      OrderHas(lines[..n], id);
      if i :| 0 <= i < |lines| && Concerns(lines[i], Test(id)) {
        assert i < n ==> lines[..n][i] == lines[i];
      }
      if i :| 0 <= i < n && Concerns(lines[..n][i], Test(id)) {
        assert lines[i] == lines[..n][i];
      }
    }
  }

  lemma {:induction false} FailedIsListed(lines: seq<Line>, id: string)
    requires id in MarksOf(lines).failed
    ensures id in MarksOf(lines).order
  {
    var n := |lines| - 1;
    if id in MarksOf(lines[..n]).failed {
      FailedIsListed(lines[..n], id);
    }
  }

  lemma {:induction false} WithFailHasFailed(lines: seq<Line>)
    ensures MarksOf(lines).withFail != {} ==> MarksOf(lines).failed != {}
  {
    if lines != [] {
      WithFailHasFailed(lines[..|lines| - 1]);
    }
  }

  // The results

  const PACKAGE_SUFFIX := "::(package)"
  const BUILD_SUFFIX := "::(build)"
  const RACE_REPORT := "package output carries a race or sanitizer report outside any test: "

  function RaceFailure(p: string, marker: string): Result { Result(p + PACKAGE_SUFFIX, Failed, RACE_REPORT + marker) }

  function PackageFailure(p: string): Result { Result(p + PACKAGE_SUFFIX, Failed, "package failed outside any test") }

  function BuildFailure(p: string): Result { Result(p + BUILD_SUFFIX, Failed, "build failed") }

  function Recorded(lines: seq<Line>, ids: seq<string>): (rs: seq<Result>)
    ensures |rs| == |ids| && forall i :: 0 <= i < |ids| ==> rs[i] == TestOf(lines, ids[i])
  {
    seq(|ids|, i requires 0 <= i < |ids| => TestOf(lines, ids[i]))
  }

  /** The package's output outside its tests carries a race report. */
  predicate RacesOutside(lines: seq<Line>, p: string, judge: Judge) {
    judge.Raced(TextOf(lines, Package(p)))
  }

  function RaceFailures(lines: seq<Line>, ps: seq<string>, judge: Judge): seq<Result> {
    if ps == [] then []
    else
      var before, p := RaceFailures(lines, ps[..|ps| - 1], judge), ps[|ps| - 1];
      if RacesOutside(lines, p, judge) then before + [RaceFailure(p, judge.marker(TextOf(lines, Package(p))))]
      else before
  }

  function RacedAmong(lines: seq<Line>, ps: seq<string>, judge: Judge): set<string> {
    set p | p in ps && RacesOutside(lines, p, judge)
  }

  function PackageFailures(ps: seq<string>, skip: set<string>): seq<Result> {
    if ps == [] then []
    else
      var before, p := PackageFailures(ps[..|ps| - 1], skip), ps[|ps| - 1];
      if p in skip then before else before + [PackageFailure(p)]
  }

  function BuildFailures(ps: seq<string>): (rs: seq<Result>)
    ensures |rs| == |ps| && forall i :: 0 <= i < |ps| ==> rs[i] == BuildFailure(ps[i])
  {
    seq(|ps|, i requires 0 <= i < |ps| => BuildFailure(ps[i]))
  }

  function ResultsFrom(lines: seq<Line>, m: Marks, judge: Judge): seq<Result> {
    Recorded(lines, m.order) + RaceFailures(lines, m.seen, judge) +
    PackageFailures(m.pkgs, m.withFail + RacedAmong(lines, m.seen, judge)) + BuildFailures(m.builds)
  }

  /** Every test in first-seen order, then a failure for each package that raced outside its tests,
      each failed package with no failed test, and each failed build. */
  function ResultsOf(lines: seq<Line>, judge: Judge): seq<Result> {
    ResultsFrom(lines, MarksOf(lines), judge)
  }
}
