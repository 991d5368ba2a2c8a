/** The results of a stream: when they hold a failure, and why a race outside any test always reds. */
module TestResults {
  import opened Quarantine
  import opened TestEvents

  predicate HasFailure(rs: seq<Result>) {
    exists i :: 0 <= i < |rs| && rs[i].status.Failed?
  }

  predicate HasUnfinished(rs: seq<Result>) {
    exists i :: 0 <= i < |rs| && rs[i].status.NoResult?
  }

  predicate AllFailed(rs: seq<Result>) {
    forall i :: 0 <= i < |rs| ==> rs[i].status.Failed?
  }

  lemma HasFailureConcat(a: seq<Result>, b: seq<Result>)
    ensures HasFailure(a + b) <==> HasFailure(a) || HasFailure(b)
  {
    if i :| 0 <= i < |a| && a[i].status.Failed? {
      assert (a + b)[i].status.Failed?;
    }
    if i :| 0 <= i < |b| && b[i].status.Failed? {
      assert (a + b)[|a| + i].status.Failed?;
    }
  }

  /** Failures alone: one among them exactly when there are any, and none is unfinished. */
  lemma FailuresAppended(a: seq<Result>, b: seq<Result>)
    requires AllFailed(b)
    ensures HasFailure(a + b) <==> HasFailure(a) || b != []
    ensures HasUnfinished(a + b) <==> HasUnfinished(a)
  {
    HasFailureConcat(a, b);
    if b != [] {
      assert b[0].status.Failed?;
    }
    if i :| 0 <= i < |a| && a[i].status.NoResult? {
      assert (a + b)[i].status.NoResult?;
    }
    if i :| 0 <= i < |a + b| && (a + b)[i].status.NoResult? {
      assert i < |a|;
    }
  }

  lemma {:induction false} RaceFailuresAre(lines: seq<Line>, ps: seq<string>, judge: Judge)
    ensures AllFailed(RaceFailures(lines, ps, judge))
    ensures RaceFailures(lines, ps, judge) == [] <==> RacedAmong(lines, ps, judge) == {}
  {
    if ps == [] {
      assert RacedAmong(lines, ps, judge) == {};
    } else {
      var n := |ps| - 1;
      RaceFailuresAre(lines, ps[..n], judge);
      assert ps == ps[..n] + [ps[n]];
      if RacesOutside(lines, ps[n], judge) {
        assert ps[n] in RacedAmong(lines, ps, judge);
      } else {
        assert RacedAmong(lines, ps, judge) == RacedAmong(lines, ps[..n], judge);
      }
    }
  }

  lemma {:induction false} PackageFailuresAre(ps: seq<string>, skip: set<string>)
    ensures AllFailed(PackageFailures(ps, skip))
    ensures PackageFailures(ps, skip) != [] <==> exists p :: p in ps && p !in skip
  {
    if ps != [] {
      PackageFailuresAre(ps[..|ps| - 1], skip);
      assert ps == ps[..|ps| - 1] + [ps[|ps| - 1]];
    }
  }

  lemma RecordedFailures(lines: seq<Line>)
    ensures HasFailure(Recorded(lines, MarksOf(lines).order)) <==> MarksOf(lines).failed != {}
  {
    var order := MarksOf(lines).order;
    var rs := Recorded(lines, order);
    if i :| 0 <= i < |rs| && rs[i].status.Failed? {
      assert order[i] in MarksOf(lines).failed;
    }
    if id :| id in MarksOf(lines).failed {
      FailedIsListed(lines, id);
      var i :| 0 <= i < |order| && order[i] == id;
      assert rs[i].status.Failed?;
    }
  }

  /** A test was begun and never passed, skipped or failed. */
  predicate Unfinished(lines: seq<Line>) {
    exists i :: 0 <= i < |MarksOf(lines).order| && TestOf(lines, MarksOf(lines).order[i]).status.NoResult?
  }

  /** Some package's output outside its tests carries a race report. */
  predicate RacedOutside(lines: seq<Line>, judge: Judge) {
    RacedAmong(lines, MarksOf(lines).seen, judge) != {}
  }

  /** The stream reports a failure: of a test, of a package, of a build, or a race outside tests. */
  predicate ReportsFailure(lines: seq<Line>, judge: Judge) {
    var m := MarksOf(lines);
    m.failed != {} || m.pkgs != [] || m.builds != [] || RacedOutside(lines, judge)
  }

  /** The results hold a failure exactly when the stream reports one, an unfinished test exactly
      when it has one, and nothing exactly when it has no test and reports no failure. */
  lemma ResultsSay(lines: seq<Line>, judge: Judge)
    ensures HasFailure(ResultsOf(lines, judge)) <==> ReportsFailure(lines, judge)
    ensures HasUnfinished(ResultsOf(lines, judge)) <==> Unfinished(lines)
    ensures ResultsOf(lines, judge) == [] <==> MarksOf(lines).order == [] && !ReportsFailure(lines, judge)
  {
    var m := MarksOf(lines);
    var raced := RacedAmong(lines, m.seen, judge);
    var a, b := Recorded(lines, m.order), RaceFailures(lines, m.seen, judge);
    var c, d := PackageFailures(m.pkgs, m.withFail + raced), BuildFailures(m.builds);
    RaceFailuresAre(lines, m.seen, judge);
    PackageFailuresAre(m.pkgs, m.withFail + raced);
    FailuresAppended(a, b);
    FailuresAppended(a + b, c);
    FailuresAppended(a + b + c, d);
    RecordedFailures(lines);
    WithFailHasFailed(lines);
    PackagesDecide(m.pkgs, m.withFail, raced);
    UnfinishedRecorded(lines);
    if m.order == [] {
      assert MarksOf(lines).failed == {} by {
        if id :| id in MarksOf(lines).failed {
          FailedIsListed(lines, id);
        }
      }
    }
  }

  lemma UnfinishedRecorded(lines: seq<Line>)
    ensures HasUnfinished(Recorded(lines, MarksOf(lines).order)) <==> Unfinished(lines)
  {
    var order := MarksOf(lines).order;
    var rs := Recorded(lines, order);
    if i :| 0 <= i < |rs| && rs[i].status.NoResult? {
      assert TestOf(lines, order[i]).status.NoResult?;
    }
    if i :| 0 <= i < |order| && TestOf(lines, order[i]).status.NoResult? {
      assert rs[i].status.NoResult?;
    }
  }

  /** A failed package is reported itself unless one of its tests failed or it raced. */
  lemma PackagesDecide(ps: seq<string>, withFail: set<string>, raced: set<string>)
    ensures (exists p :: p in ps && p !in withFail + raced) || withFail != {} || raced != {} <==>
            ps != [] || withFail != {} || raced != {}
  {
    if ps != [] {
      assert ps[0] in ps;
    }
  }

  // A race outside any test

  /** A report that quotes a raced text's marker is raced as well. */
  predicate QuotesIn(judge: Judge, text: string) {
    judge.Raced(text) ==> judge.Raced(RACE_REPORT + judge.marker(text))
  }

  ghost predicate Quotes(judge: Judge) {
    forall text :: QuotesIn(judge, text)
  }

  predicate NoResultOf(rs: seq<Result>, t: string) {
    forall i :: 0 <= i < |rs| ==> rs[i].test != t
  }

  lemma {:induction false} OutputOfConcat(a: seq<Result>, b: seq<Result>, t: string)
    requires NoResultOf(b, t)
    ensures OutputOf(a + b, t) == OutputOf(a, t)
    decreases |b|
  {
    if b == [] {
      assert a + b == a;
    } else {
      assert (a + b)[..|a + b| - 1] == a + b[..|b| - 1];
      OutputOfConcat(a, b[..|b| - 1], t);
    }
  }

  lemma SuffixKeepsApart(p: string, q: string, suffix: string)
    requires p != q
    ensures p + suffix != q + suffix
  {
    assert (p + suffix)[..|p|] == p && (q + suffix)[..|q|] == q;
  }

  lemma SuffixesDiffer(p: string, q: string)
    ensures p + PACKAGE_SUFFIX != q + BUILD_SUFFIX
  {
    var a, b := p + PACKAGE_SUFFIX, q + BUILD_SUFFIX;
    assert a[|a| - 2] == 'e' && b[|b| - 2] == 'd';
  }

  lemma {:induction false} PackageTests(ps: seq<string>, skip: set<string>, p: string)
    requires p in skip
    ensures NoResultOf(PackageFailures(ps, skip), p + PACKAGE_SUFFIX)
  {
    if ps != [] {
      PackageTests(ps[..|ps| - 1], skip, p);
      if ps[|ps| - 1] !in skip {
        SuffixKeepsApart(p, ps[|ps| - 1], PACKAGE_SUFFIX);
      }
    }
  }

  lemma BuildTests(ps: seq<string>, p: string)
    ensures NoResultOf(BuildFailures(ps), p + PACKAGE_SUFFIX)
  {
    forall i | 0 <= i < |ps|
      ensures BuildFailures(ps)[i].test != p + PACKAGE_SUFFIX
    {
      SuffixesDiffer(p, ps[i]);
    }
  }

  /** The report of a raced package is among the race failures, and the last word on its test id. */
  lemma {:induction false} RaceIsReported(before: seq<Result>, lines: seq<Line>, ps: seq<string>, judge: Judge,
                                          p: string)
    returns (i: nat)
    requires p in ps && RacesOutside(lines, p, judge) && Quotes(judge)
    ensures
      var all := before + RaceFailures(lines, ps, judge);
      |before| <= i < |all| && all[i] == RaceFailure(p, judge.marker(TextOf(lines, Package(p)))) &&
      judge.Raced(all[i].output) && judge.Raced(OutputOf(all, p + PACKAGE_SUFFIX))
    decreases |ps|
  {
    var n := |ps| - 1;
    var q, rest := ps[n], RaceFailures(lines, ps[..n], judge);
    assert ps == ps[..n] + [q];
    assert QuotesIn(judge, TextOf(lines, Package(p)));
    var all := before + RaceFailures(lines, ps, judge);
    if q == p {
      i := |all| - 1;
      assert all[i] == RaceFailure(p, judge.marker(TextOf(lines, Package(p))));
    } else {
      i := RaceIsReported(before, lines, ps[..n], judge, p);
      if RacesOutside(lines, q, judge) {
        var more := [RaceFailure(q, judge.marker(TextOf(lines, Package(q))))];
        SuffixKeepsApart(p, q, PACKAGE_SUFFIX);
        OutputOfConcat(before + rest, more, p + PACKAGE_SUFFIX);
        assert all == before + rest + more;
      }
    }
  }

  /** A raced failure reds the run when nothing after it says otherwise of the same test. */
  lemma RacedResultReds(before: seq<Result>, after: seq<Result>, judge: Judge, run: Run, k: nat)
    requires run.results == before + after && k < |before| && NoResultOf(after, before[k].test)
    requires before[k].status.Failed? && judge.Raced(before[k].output) && judge.Raced(OutputOf(before, before[k].test))
    ensures Red(run, judge)
  {
    assert run.results[k] == before[k];
    OutputOfConcat(before, after, before[k].test);
    RaceAlwaysReds(run, judge, k);
  }

  lemma NothingAfterRaces(failed: seq<string>, skip: set<string>, builds: seq<string>, p: string)
    requires p in skip
    ensures NoResultOf(PackageFailures(failed, skip) + BuildFailures(builds), p + PACKAGE_SUFFIX)
  {
    PackageTests(failed, skip, p);
    BuildTests(builds, p);
  }

  /** A race report outside any test reds the run in every tier, whatever the registry lists. */
  lemma RaceOutsideReds(lines: seq<Line>, judge: Judge, run: Run)
    requires Quotes(judge) && RacedOutside(lines, judge) && run.results == ResultsOf(lines, judge)
    ensures Red(run, judge)
  {
    var m := MarksOf(lines);
    var skip := m.withFail + RacedAmong(lines, m.seen, judge);
    var p :| p in RacedAmong(lines, m.seen, judge);
    var a, b := Recorded(lines, m.order), RaceFailures(lines, m.seen, judge);
    var c, d := PackageFailures(m.pkgs, skip), BuildFailures(m.builds);
    var k := RaceIsReported(a, lines, m.seen, judge, p);
    NothingAfterRaces(m.pkgs, skip, m.builds, p);
    assert a + b + c + d == (a + b) + (c + d);
    RacedResultReds(a + b, c + d, judge, run, k);
  }
}
