/** Which build-fail events red a run: exactly when one does, and a stream where one does not. */
module TestBuildFail {
  import opened Quarantine
  import opened TestEvents
  import opened TestResults
  import opened TestExit

  /** A build-fail event. */
  predicate IsBuildFail(e: Line) { e.Event? && e.action.BuildFailAction? }

  /** The tests a build-fail event names beside its package. */
  function Names(e: Line): set<string> {
    if WellFormed(e) && e.test != "" then {IdOf(e)} else {}
  }

  /** m' is m but for tests named in between. */
  ghost predicate SameBut(m: Marks, m': Marks, named: set<string>) {
    (forall id :: id in m'.order <==> id in m.order || id in named) &&
    m'.failed == m.failed && m'.withFail == m.withFail && m'.seen == m.seen && m'.pkgs == m.pkgs &&
    m'.builds == m.builds && m'.refused == m.refused
  }

  lemma MarkSameBut(m: Marks, m': Marks, named: set<string>, x: Line)
    requires SameBut(m, m', named)
    ensures SameBut(Mark(m, x), Mark(m', x), named)
  {
  }

  /** A build-fail event with a package leaves everything as it is but the tests it names. */
  lemma {:induction false} LeavesMarks(a: seq<Line>, e: Line, b: seq<Line>)
    requires IsBuildFail(e) && e.pkg != ""
    ensures SameBut(MarksOf(a + b), MarksOf(a + [e] + b), Names(e))
    decreases |b|
  {
    if b == [] {
      assert a + b == a && a + [e] + b == a + [e];
      assert (a + [e])[..|a|] == a;
    } else {
      var n := |b| - 1;
      LeavesMarks(a, e, b[..n]);
      assert (a + b)[..|a + b| - 1] == a + b[..n];
      assert (a + [e] + b)[..|a + [e] + b| - 1] == a + [e] + b[..n];
      MarkSameBut(MarksOf(a + b[..n]), MarksOf(a + [e] + b[..n]), Names(e), b[n]);
    }
  }

  lemma {:induction false} LeavesTexts(a: seq<Line>, e: Line, b: seq<Line>, s: Subject, id: string)
    requires IsBuildFail(e) && e.pkg != ""
    ensures TextOf(a + [e] + b, s) == TextOf(a + b, s) && Verdict(a + [e] + b, id) == Verdict(a + b, id)
    decreases |b|
  {
    if b == [] {
      assert a + b == a && a + [e] + b == a + [e];
      assert (a + [e])[..|a|] == a;
    } else {
      var n := |b| - 1;
      LeavesTexts(a, e, b[..n], s, id);
      assert (a + b)[..|a + b| - 1] == a + b[..n];
      assert (a + [e] + b)[..|a + [e] + b| - 1] == a + [e] + b[..n];
    }
  }

  lemma LeavesTest(a: seq<Line>, e: Line, b: seq<Line>, id: string)
    requires IsBuildFail(e) && e.pkg != ""
    ensures TestOf(a + [e] + b, id) == TestOf(a + b, id)
  {
    LeavesMarks(a, e, b);
    LeavesTexts(a, e, b, Test(id), id);
  }

  lemma LeavesRaces(a: seq<Line>, e: Line, b: seq<Line>, judge: Judge)
    requires IsBuildFail(e) && e.pkg != ""
    ensures RacedOutside(a + [e] + b, judge) <==> RacedOutside(a + b, judge)
    ensures ReportsFailure(a + [e] + b, judge) <==> ReportsFailure(a + b, judge)
  {
    LeavesMarks(a, e, b);
    var seen := MarksOf(a + b).seen;
    forall p
      ensures p in RacedAmong(a + [e] + b, seen, judge) <==> p in RacedAmong(a + b, seen, judge)
    {
      LeavesTexts(a, e, b, Package(p), "");
    }
    assert RacedAmong(a + [e] + b, seen, judge) == RacedAmong(a + b, seen, judge);
  }

  /** The event leaves a test unfinished exactly when it names one nothing else is about. */
  lemma LeavesUnfinished(a: seq<Line>, e: Line, b: seq<Line>)
    requires IsBuildFail(e) && e.pkg != "" && !Unfinished(a + b)
    ensures Unfinished(a + [e] + b) <==> e.test != "" && IdOf(e) !in MarksOf(a + b).order
  {
    var lines, lines' := a + b, a + [e] + b;
    LeavesMarks(a, e, b);
    if Unfinished(lines') {
      var i :| 0 <= i < |MarksOf(lines').order| && TestOf(lines', MarksOf(lines').order[i]).status.NoResult?;
      var id := MarksOf(lines').order[i];
      LeavesTest(a, e, b, id);
      FinishedIfListed(lines, id);
    }
    if e.test != "" && IdOf(e) !in MarksOf(lines).order {
      UnlistedHasNoResult(lines, IdOf(e));
      LeavesTest(a, e, b, IdOf(e));
      var i :| 0 <= i < |MarksOf(lines').order| && MarksOf(lines').order[i] == IdOf(e);
      assert TestOf(lines', MarksOf(lines').order[i]).status.NoResult?;
    }
  }

  lemma FinishedIfListed(lines: seq<Line>, id: string)
    requires !Unfinished(lines)
    ensures id in MarksOf(lines).order ==> !TestOf(lines, id).status.NoResult?
  {
    if id in MarksOf(lines).order {
      var k :| 0 <= k < |MarksOf(lines).order| && MarksOf(lines).order[k] == id;
      assert !TestOf(lines, MarksOf(lines).order[k]).status.NoResult?;
    }
  }

  /** A test nothing is about has no result. */
  lemma {:induction false} UnlistedHasNoResult(lines: seq<Line>, id: string)
    requires id !in MarksOf(lines).order
    ensures TestOf(lines, id).status.NoResult?
  {
    if lines != [] {
      var n := |lines| - 1;
      UnlistedHasNoResult(lines[..n], id);
      if id in MarksOf(lines).failed {
        FailedIsListed(lines, id);
      }
    }
  }

  /** Exactly when a build-fail event reds a full-tier run that is green without it, wherever it
      stands in the stream: when it carries no package, or when it carries one and names a test
      that no other event is about. The events go test emits carry none. */
  lemma BuildFailRedsExactly(a: seq<Line>, e: Line, b: seq<Line>, run: Run, run': Run, judge: Judge)
    requires IsBuildFail(e) && run.tier.Full? && run.results == ResultsOf(a + b, judge)
    requires run' == run.(results := ResultsOf(a + [e] + b, judge))
    requires ExitOf(MarksOf(a + b).refused, run, judge) == ExitGreen
    ensures ExitOf(MarksOf(a + [e] + b).refused, run', judge) == ExitRed <==>
            e.pkg == "" || (e.test != "" && IdOf(e) !in MarksOf(a + b).order)
  {
    var lines, lines' := a + b, a + [e] + b;
    FullTierExactly(lines, MarksOf(lines).refused, run, judge);
    if e.pkg == "" {
      assert lines'[|a|] == e;
      FailEventReds(lines', |a|, run', judge);
    } else {
      FullTierExactly(lines', MarksOf(lines').refused, run', judge);
      LeavesMarks(a, e, b);
      LeavesRaces(a, e, b, judge);
      LeavesUnfinished(a, e, b);
      assert MarksOf(lines).order[0] in MarksOf(lines').order;
    }
  }

  /** A stream with a passing test and a build-fail event that carries a package: the full tier
      exits green. */
  lemma BuildFailWithPackageExitsGreen(judge: Judge) returns (lines: seq<Line>, run: Run)
    ensures run.tier.Full? && run.results == ResultsOf(lines, judge)
    ensures exists i :: 0 <= i < |lines| && IsBuildFail(lines[i])
    ensures ExitOf(MarksOf(lines).refused, run, judge) == ExitGreen
  {
    var pass := Event(PassAction, "p", "", "T", "");
    var fail := Event(BuildFailAction, "p", "p", "", "");
    lines := [pass, fail];
    run := Run(true, map[], Full, {}, ResultsOf(lines, judge));
    assert lines[..1] == [pass] && lines[..1][..0] == [];
    var id := IdOf(pass);
    var m := Mark(UNMARKED, pass);
    assert MarksOf([pass]) == m by {
      assert [pass][..0] == [];
    }
    assert m == Marks([id], {}, {}, [], [], [], false);
    assert MarksOf(lines) == Mark(m, fail) == m;
    assert Concerns(pass, Test(id)) && !Concerns(fail, Test(id));
    assert Verdict([pass], id) == Passed;
    assert Verdict(lines, id) == Passed;
    assert lines[1] == fail;
    FullTierExactly(lines, false, run, judge);
  }
}
