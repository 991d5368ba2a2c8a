/** What a test stream reports, event by event: which line makes which result, and when a full run
    is green. */
module TestFacts {
  import opened Quarantine
  import opened TestEvents
  import opened TestResults
  import opened TestExit

  /** Something one line of a stream can establish. */
  datatype Fact =
    | Tested(id: string)
    | TestFailed(id: string)
    | FailedWithin(pkg: string)
    | SpokeOutside(pkg: string)
    | FailedOutside(pkg: string)
    | BuildFailed(path: string)
    | Refused

  predicate OfTest(e: Line) { e.Event? && e.pkg != "" && e.test != "" && !e.action.NoAction? }

  predicate OfPackage(e: Line) { e.Event? && e.pkg != "" && e.test == "" }

  /** The line establishes the fact. */
  predicate Says(e: Line, f: Fact) {
    match f
    case Tested(id) => OfTest(e) && e.pkg + "::" + e.test == id
    case TestFailed(id) => OfTest(e) && e.pkg + "::" + e.test == id && e.action.FailAction?
    case FailedWithin(p) => OfTest(e) && e.pkg == p && e.action.FailAction?
    case SpokeOutside(p) => OfPackage(e) && e.pkg == p && e.action.OutputAction?
    case FailedOutside(p) => OfPackage(e) && e.pkg == p && e.action.FailAction?
    case BuildFailed(path) =>
      e.Event? && e.pkg == "" && e.importPath == path && path != "" && e.action.BuildFailAction?
    case Refused =>
      e.NotJson? ||
      (e.Event? && e.pkg != "" && e.action.NoAction?) ||
      (e.Event? && e.pkg == "" && (e.importPath == "" || (!e.action.BuildFailAction? && !e.action.OtherBuildAction?)))
  }

  /** Some line of the stream establishes the fact. */
  predicate Reported(lines: seq<Line>, f: Fact) {
    exists i :: 0 <= i < |lines| && Says(lines[i], f)
  }

  /** The marks hold the fact. */
  predicate Holds(m: Marks, f: Fact) {
    match f
    case Tested(id) => id in m.order
    case TestFailed(id) => id in m.failed
    case FailedWithin(p) => p in m.withFail
    case SpokeOutside(p) => p in m.seen
    case FailedOutside(p) => p in m.pkgs
    case BuildFailed(path) => path in m.builds
    case Refused => m.refused
  }

  lemma MarkHolds(m: Marks, e: Line, f: Fact)
    ensures Holds(Mark(m, e), f) <==> Holds(m, f) || Says(e, f)
  {
  }

  /** A stream's marks are exactly the facts its lines establish. */
  lemma {:induction false} MarksAreReported(lines: seq<Line>, f: Fact)
    ensures Holds(MarksOf(lines), f) <==> Reported(lines, f)
  {
    if lines != [] {
      var n := |lines| - 1;
      MarksAreReported(lines[..n], f);
      MarkHolds(MarksOf(lines[..n]), lines[n], f);
      if i :| 0 <= i < |lines| && Says(lines[i], f) {
        assert i < n ==> lines[..n][i] == lines[i];
      }
      if i :| 0 <= i < n && Says(lines[..n][i], f) {
        assert lines[i] == lines[..n][i];
      }
    }
  }

  /** The line passes or skips the test. */
  predicate Ends(e: Line, id: string) {
    Says(e, Tested(id)) && (e.action.PassAction? || e.action.SkipAction?)
  }

  /** The last line to pass or skip the test. */
  predicate EndsAt(lines: seq<Line>, id: string, i: nat) {
    i < |lines| && Ends(lines[i], id) && forall j :: i < j < |lines| ==> !Ends(lines[j], id)
  }

  predicate NeverEnds(lines: seq<Line>, id: string) {
    forall j :: 0 <= j < |lines| ==> !Ends(lines[j], id)
  }

  lemma {:induction false} VerdictIsLast(lines: seq<Line>, id: string, i: nat)
    ensures NeverEnds(lines, id) ==> Verdict(lines, id) == NoResult
    ensures EndsAt(lines, id, i) ==> Verdict(lines, id) == if lines[i].action.PassAction? then Passed else Skipped
  {
    if lines != [] {
      var n := |lines| - 1;
      assert Concerns(lines[n], Test(id)) <==> Says(lines[n], Tested(id));
      if !Ends(lines[n], id) {
        VerdictIsLast(lines[..n], id, i);
      }
    }
  }

  /** A test's status: failed exactly when some line fails it, else as the last line to pass or
      skip it says, else none. */
  lemma StatusExactly(lines: seq<Line>, id: string, i: nat)
    ensures
      var status := TestOf(lines, id).status;
      (status.Failed? <==> Reported(lines, TestFailed(id))) &&
      (!status.Failed? && NeverEnds(lines, id) ==> status.NoResult?) &&
      (!status.Failed? && EndsAt(lines, id, i) ==>
        status == if lines[i].action.PassAction? then Passed else Skipped)
  {
    MarksAreReported(lines, TestFailed(id));
    VerdictIsLast(lines, id, i);
  }

  /** Every line that speaks of a subject adds its output after all that was said before, and
      nothing read later changes that. */
  lemma {:induction false} TextStands(lines: seq<Line>, s: Subject, i: nat)
    requires i < |lines|
    ensures
      var added := if Speaks(lines[i], s) then lines[i].output else "";
      TextOf(lines[..i + 1], s) == TextOf(lines[..i], s) + added && TextOf(lines[..i + 1], s) <= TextOf(lines, s)
    decreases |lines|
  {
    assert lines[..i + 1][..i] == lines[..i];
    var n := |lines| - 1;
    if i == n {
      assert lines[..i + 1] == lines;
    } else {
      TextStands(lines[..n], s, i);
      assert lines[..n][..i + 1] == lines[..i + 1] && lines[..n][..i] == lines[..i];
    }
  }

  // The results

  /** What the package said outside its tests carries a race report. */
  predicate Races(lines: seq<Line>, p: string, judge: Judge) {
    Reported(lines, SpokeOutside(p)) && judge.Raced(TextOf(lines, Package(p)))
  }

  /** A fact makes a result: a test its own, a race outside tests a report that names the marker, a
      failed package one unless a test of it failed or it raced, a failed build one. */
  predicate Makes(lines: seq<Line>, judge: Judge, f: Fact, r: Result) {
    Reported(lines, f) &&
    match f
    case Tested(id) => r == TestOf(lines, id)
    case SpokeOutside(p) =>
      Races(lines, p, judge) && r.test == p + "::(package)" && r.status.Failed? &&
      r.output == RACE_REPORT + judge.marker(TextOf(lines, Package(p)))
    case FailedOutside(p) =>
      !Reported(lines, FailedWithin(p)) && !Races(lines, p, judge) &&
      r == Result(p + "::(package)", Failed, "package failed outside any test")
    case BuildFailed(path) => r == Result(path + "::(build)", Failed, "build failed")
    case _ => false
  }

  lemma RacedIs(lines: seq<Line>, judge: Judge, p: string)
    ensures p in RacedAmong(lines, MarksOf(lines).seen, judge) <==> Races(lines, p, judge)
  {
    MarksAreReported(lines, SpokeOutside(p));
  }

  lemma {:induction false} RaceFailuresHold(lines: seq<Line>, ps: seq<string>, judge: Judge, r: Result)
    ensures r in RaceFailures(lines, ps, judge) <==>
            exists p :: p in ps && RacesOutside(lines, p, judge) &&
                        r == RaceFailure(p, judge.marker(TextOf(lines, Package(p))))
  {
    if ps != [] {
      RaceFailuresHold(lines, ps[..|ps| - 1], judge, r);
      assert ps == ps[..|ps| - 1] + [ps[|ps| - 1]];
    }
  }

  lemma {:induction false} PackageFailuresHold(ps: seq<string>, skip: set<string>, r: Result)
    ensures r in PackageFailures(ps, skip) <==> exists p :: p in ps && p !in skip && r == PackageFailure(p)
  {
    if ps != [] {
      PackageFailuresHold(ps[..|ps| - 1], skip, r);
      assert ps == ps[..|ps| - 1] + [ps[|ps| - 1]];
    }
  }

  lemma TestsMade(lines: seq<Line>, judge: Judge, r: Result)
    ensures r in Recorded(lines, MarksOf(lines).order) <==> exists id :: Makes(lines, judge, Tested(id), r)
  {
    var order := MarksOf(lines).order;
    var rs := Recorded(lines, order);
    if i :| 0 <= i < |rs| && rs[i] == r {
      MarksAreReported(lines, Tested(order[i]));
      assert Makes(lines, judge, Tested(order[i]), r);
    }
    if id :| Makes(lines, judge, Tested(id), r) {
      MarksAreReported(lines, Tested(id));
      var i :| 0 <= i < |order| && order[i] == id;
      assert rs[i] == r;
    }
  }

  lemma RacesMade(lines: seq<Line>, judge: Judge, r: Result)
    ensures r in RaceFailures(lines, MarksOf(lines).seen, judge) <==>
            exists p :: Makes(lines, judge, SpokeOutside(p), r)
  {
    var seen := MarksOf(lines).seen;
    RaceFailuresHold(lines, seen, judge, r);
    forall p
      ensures Makes(lines, judge, SpokeOutside(p), r) <==>
              p in seen && RacesOutside(lines, p, judge) &&
              r == RaceFailure(p, judge.marker(TextOf(lines, Package(p))))
    {
      MarksAreReported(lines, SpokeOutside(p));
    }
  }

  lemma PackagesMade(lines: seq<Line>, judge: Judge, r: Result)
    ensures
      var m := MarksOf(lines);
      r in PackageFailures(m.pkgs, m.withFail + RacedAmong(lines, m.seen, judge)) <==>
      exists p :: Makes(lines, judge, FailedOutside(p), r)
  {
    var m := MarksOf(lines);
    var skip := m.withFail + RacedAmong(lines, m.seen, judge);
    PackageFailuresHold(m.pkgs, skip, r);
    forall p
      ensures Makes(lines, judge, FailedOutside(p), r) <==> p in m.pkgs && p !in skip && r == PackageFailure(p)
    {
      MarksAreReported(lines, FailedOutside(p));
      MarksAreReported(lines, FailedWithin(p));
      RacedIs(lines, judge, p);
    }
  }

  lemma BuildsMade(lines: seq<Line>, judge: Judge, r: Result)
    ensures r in BuildFailures(MarksOf(lines).builds) <==> exists path :: Makes(lines, judge, BuildFailed(path), r)
  {
    var builds := MarksOf(lines).builds;
    var rs := BuildFailures(builds);
    if i :| 0 <= i < |rs| && rs[i] == r {
      MarksAreReported(lines, BuildFailed(builds[i]));
      assert Makes(lines, judge, BuildFailed(builds[i]), r);
    }
    if path :| Makes(lines, judge, BuildFailed(path), r) {
      MarksAreReported(lines, BuildFailed(path));
      var i :| 0 <= i < |builds| && builds[i] == path;
      assert rs[i] == r;
    }
  }

  /** The results of a stream are exactly the ones its facts make. */
  lemma ResultsExactly(lines: seq<Line>, judge: Judge, r: Result)
    ensures r in ResultsOf(lines, judge) <==> exists f :: Makes(lines, judge, f, r)
  {
    TestsMade(lines, judge, r);
    RacesMade(lines, judge, r);
    PackagesMade(lines, judge, r);
    BuildsMade(lines, judge, r);
    if f :| Makes(lines, judge, f, r) {
      match f
      case Tested(id) => assert Makes(lines, judge, Tested(id), r);
      case SpokeOutside(p) => assert Makes(lines, judge, SpokeOutside(p), r);
      case FailedOutside(p) => assert Makes(lines, judge, FailedOutside(p), r);
      case BuildFailed(path) => assert Makes(lines, judge, BuildFailed(path), r);
    }
  }

  // The exit

  /** Some line tests it, and none passes, skips or fails it. */
  predicate LeftOpen(lines: seq<Line>, id: string) {
    Reported(lines, Tested(id)) && !Reported(lines, TestFailed(id)) && NeverEnds(lines, id)
  }

  /** The test, package or build x failed, or the package raced outside its tests. */
  predicate FailureOf(lines: seq<Line>, x: string, judge: Judge) {
    Reported(lines, TestFailed(x)) || Reported(lines, FailedOutside(x)) || Reported(lines, BuildFailed(x)) ||
    Races(lines, x, judge)
  }

  /** Nothing in the stream stands against a green run. */
  ghost predicate AllClear(lines: seq<Line>, judge: Judge) {
    !Reported(lines, Refused) &&
    (exists id :: Reported(lines, Tested(id))) &&
    forall x :: !LeftOpen(lines, x) && !FailureOf(lines, x, judge)
  }

  lemma {:induction false} EndsSomewhere(lines: seq<Line>, id: string) returns (i: nat)
    requires !NeverEnds(lines, id)
    ensures EndsAt(lines, id, i)
    decreases |lines|
  {
    var n := |lines| - 1;
    if Ends(lines[n], id) {
      return n;
    }
    assert !NeverEnds(lines[..n], id) by {
      var j :| 0 <= j < |lines| && Ends(lines[j], id);
      assert lines[..n][j] == lines[j];
    }
    i := EndsSomewhere(lines[..n], id);
  }

  lemma OpenIs(lines: seq<Line>, id: string)
    ensures LeftOpen(lines, id) <==> id in MarksOf(lines).order && TestOf(lines, id).status.NoResult?
  {
    MarksAreReported(lines, Tested(id));
    if NeverEnds(lines, id) {
      StatusExactly(lines, id, 0);
    } else {
      var i := EndsSomewhere(lines, id);
      StatusExactly(lines, id, i);
    }
  }

  lemma UnfinishedIs(lines: seq<Line>)
    ensures Unfinished(lines) <==> exists id :: LeftOpen(lines, id)
  {
    var order := MarksOf(lines).order;
    if i :| 0 <= i < |order| && TestOf(lines, order[i]).status.NoResult? {
      OpenIs(lines, order[i]);
    }
    if id :| LeftOpen(lines, id) {
      OpenIs(lines, id);
      var i :| 0 <= i < |order| && order[i] == id;
      assert TestOf(lines, order[i]).status.NoResult?;
    }
  }

  lemma FailureIs(lines: seq<Line>, judge: Judge)
    ensures ReportsFailure(lines, judge) <==> exists x :: FailureOf(lines, x, judge)
  {
    var m := MarksOf(lines);
    forall x
      ensures FailureOf(lines, x, judge) <==>
              x in m.failed || x in m.pkgs || x in m.builds || x in RacedAmong(lines, m.seen, judge)
    {
      MarksAreReported(lines, TestFailed(x));
      MarksAreReported(lines, FailedOutside(x));
      MarksAreReported(lines, BuildFailed(x));
      RacedIs(lines, judge, x);
    }
    if m.pkgs != [] {
      assert m.pkgs[0] in m.pkgs && FailureOf(lines, m.pkgs[0], judge);
    }
    if m.builds != [] {
      assert m.builds[0] in m.builds && FailureOf(lines, m.builds[0], judge);
    }
  }

  lemma SomeTestIs(lines: seq<Line>)
    ensures MarksOf(lines).order != [] <==> exists id :: Reported(lines, Tested(id))
  {
    var order := MarksOf(lines).order;
    if order != [] {
      MarksAreReported(lines, Tested(order[0]));
    }
    if id :| Reported(lines, Tested(id)) {
      MarksAreReported(lines, Tested(id));
    }
  }

  /** A full run that read its whole stream is green exactly when the registry is sound and the
      stream is all clear, line by line; otherwise it is red. */
  lemma FullTierByEvents(lines: seq<Line>, run: Run, judge: Judge)
    requires run.tier.Full? && run.results == ResultsOf(lines, judge)
    ensures ExitOf(MarksOf(lines).refused, run, judge) ==
            if run.registryOk && !Expired(run.entries) && AllClear(lines, judge) then ExitGreen else ExitRed
  {
    FullTierExactly(lines, MarksOf(lines).refused, run, judge);
    MarksAreReported(lines, Refused);
    SomeTestIs(lines);
    UnfinishedIs(lines);
    FailureIs(lines, judge);
  }
}
