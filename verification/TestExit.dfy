/** The exit decision of a test run, from the stream to the exit code. */
module TestExit {
  import opened Quarantine
  import opened QuarantineRules
  import opened Evaluation
  import opened RaceMarkers
  import opened TestEvents
  import opened TestResults
  import opened TestStream

  datatype Exit = ExitGreen | ExitExcused | ExitRed

  /** The run a stream makes. */
  function RunOf(lines: seq<Line>, registryOk: bool, entries: map<string, Entry>, tier: Tier, edited: set<string>,
                 judge: Judge): Run
  {
    Run(registryOk, entries, tier, edited, ResultsOf(lines, judge))
  }

  /** The exit a run deserves: red by the rules, or because the stream could not be read whole, or because
      it said nothing; excused when something failed all the same; green when nothing did. */
  function ExitOf(unread: bool, run: Run, judge: Judge): Exit {
    if Red(run, judge) || unread || run.results == [] then ExitRed
    else if HasFailure(run.results) then ExitExcused
    else ExitGreen
  }

  /** A failure decides the run: red in the full tier, and otherwise red or directly excused. */
  lemma FailureDecides(run: Run, judge: Judge)
    requires HasFailure(run.results)
    ensures run.tier.Full? ==> Red(run, judge)
    ensures !Red(run, judge) ==> ExcusedCount(run, judge, |run.results|) > 0
  {
    var i :| 0 <= i < |run.results| && run.results[i].status.Failed?;
    var t := run.results[i].test;
    assert FailsAs(run, i, t);
    if run.tier.Full? {
      FullTierReds(run, judge, t);
    }
    if !Red(run, judge) {
      SomethingIsExcused(run, judge, t);
    }
  }

  method CountFailed(rs: seq<Result>) returns (n: nat)
    ensures n > 0 <==> HasFailure(rs)
  {
    n := 0;
    for i := 0 to |rs|
      invariant n > 0 <==> exists k :: 0 <= k < i && rs[k].status.Failed?
    {
      if rs[i].status.Failed? {
        n := n + 1;
      }
    }
  }

  /** The final switch. Its third case never decides: failures that are neither red nor excused
      do not occur. */
  method Conclude(run: Run, judge: Judge, unread: bool) returns (exit: Exit)
    ensures exit == ExitRed <==> Red(run, judge) || unread || run.results == []
    ensures exit == ExitRed <==> RedByRule(run, judge) || unread || run.results == []
    ensures exit == ExitExcused ==>
              HasFailure(run.results) && exists i :: 0 <= i < |run.results| && ForgivenAt(run, judge, i)
    ensures exit == ExitGreen ==> !HasFailure(run.results)
  {
    var red, excused := Evaluate(run, judge);
    if unread {
      red := true;
    }
    if |run.results| == 0 && !unread {
      red := true;
    }
    var failed := CountFailed(run.results);
    if HasFailure(run.results) {
      FailureDecides(run, judge);
    }
    if red {
      return ExitRed;
    }
    if excused > 0 {
      return ExitExcused;
    }
    if failed > 0 {
      return ExitRed;
    }
    return ExitGreen;
  }

  lemma SourceJudgeQuotes(own: (string, string, seq<string>) -> bool)
    ensures Quotes(SourceJudge(own))
  {
    var judge := SourceJudge(own);
    forall text
      ensures QuotesIn(judge, text)
    {
      if judge.Raced(text) {
        QuotedMarkerIsRaced(text, RACE_REPORT);
      }
    }
  }

  /** run: read the stream, gather the results, judge them. The exit is exactly the one the stream
      deserves. */
  method RunTests(lines: seq<Line>, readFailed: bool, registryOk: bool, entries: map<string, Entry>, tier: Tier,
                  edited: set<string>, own: (string, string, seq<string>) -> bool)
    returns (exit: Exit)
    ensures
      var judge := SourceJudge(own);
      exit == ExitOf(MarksOf(lines).refused || readFailed,
                     RunOf(lines, registryOk, entries, tier, edited, judge), judge)
    ensures
      var judge := SourceJudge(own);
      var run := RunOf(lines, registryOk, entries, tier, edited, judge);
      exit == ExitRed <==> MarksOf(lines).refused || readFailed || run.results == [] || RedByRule(run, judge)
    ensures RacedOutside(lines, SourceJudge(own)) ==> exit == ExitRed
    ensures exit == ExitGreen ==> !ReportsFailure(lines, SourceJudge(own))
    ensures exit == ExitExcused ==> tier.Fast? && ReportsFailure(lines, SourceJudge(own))
  {
    var c := new Collector();
    for i := 0 to |lines|
      invariant fresh(c) && c.Valid() && c.lines == lines[..i]
    {
      c.Take(lines[i]);
      assert lines[..i] + [lines[i]] == lines[..i + 1];
    }
    assert lines[..|lines|] == lines;
    var judge := SourceJudge(own);
    var rs := c.Results(judge);
    exit := Conclude(Run(registryOk, entries, tier, edited, rs), judge, c.errs > 0 || readFailed);
    SourceJudgeQuotes(own);
    EveryTier(lines, c.errs > 0 || readFailed, Run(registryOk, entries, tier, edited, rs), judge);
  }

  // What the exit says

  predicate Expired(entries: map<string, Entry>) {
    exists t :: t in entries && entries[t].expired
  }

  /** In the full tier the exit is green exactly when the registry parsed and nothing in it has
      expired, the whole stream was read, there was a test, every test finished, and nothing
      failed; otherwise it is red. It is never excused. */
  lemma FullTierExactly(lines: seq<Line>, unread: bool, run: Run, judge: Judge)
    requires run.tier.Full? && run.results == ResultsOf(lines, judge)
    ensures
      ExitOf(unread, run, judge) ==
      if run.registryOk && !Expired(run.entries) && !unread && MarksOf(lines).order != [] && !Unfinished(lines) &&
         !ReportsFailure(lines, judge)
      then ExitGreen else ExitRed
  {
    ResultsSay(lines, judge);
    if HasFailure(run.results) {
      FailureDecides(run, judge);
    }
    RedWithoutFailure(run, judge);
  }

  /** Without a failure only the registry and unfinished tests red a run. */
  lemma RedWithoutFailure(run: Run, judge: Judge)
    ensures RegistryReds(run) || HasUnfinished(run.results) ==> Red(run, judge)
    ensures !HasFailure(run.results) && Red(run, judge) ==> RegistryReds(run) || HasUnfinished(run.results)
    ensures RegistryReds(run) <==> !run.registryOk || Expired(run.entries)
  {
    if i :| 0 <= i < |run.results| && run.results[i].status.NoResult? {
      assert Reds(run, judge, i);
    }
    if !HasFailure(run.results) && Red(run, judge) && !RegistryReds(run) {
      var i :| 0 <= i < |run.results| && Reds(run, judge, i);
      assert !run.results[i].status.Failed?;
    }
  }

  /** In every tier: a race outside any test is red, and an exit that is not red leaves no failure
      unless it is excused, by a registry entry, in the fast tier. */
  lemma EveryTier(lines: seq<Line>, unread: bool, run: Run, judge: Judge)
    requires Quotes(judge) && run.results == ResultsOf(lines, judge)
    ensures RacedOutside(lines, judge) ==> ExitOf(unread, run, judge) == ExitRed
    ensures ExitOf(unread, run, judge) == ExitGreen ==> !ReportsFailure(lines, judge)
    ensures ExitOf(unread, run, judge) == ExitExcused ==>
      run.tier.Fast? && ReportsFailure(lines, judge) &&
      exists i :: 0 <= i < |run.results| && ForgivenAt(run, judge, i)
  {
    ResultsSay(lines, judge);
    if RacedOutside(lines, judge) {
      RaceOutsideReds(lines, judge, run);
    }
    if HasFailure(run.results) && !Red(run, judge) {
      FailureDecides(run, judge);
      CountExactly(run, judge);
    }
  }

  /** Every fail event, and every build-fail event without a package, reports a failure or refuses
      the stream: in the full tier either is red. */
  lemma FailEventReds(lines: seq<Line>, i: nat, run: Run, judge: Judge)
    requires i < |lines| && lines[i].Event? && run.tier.Full? && run.results == ResultsOf(lines, judge)
    requires lines[i].action.FailAction? || (lines[i].action.BuildFailAction? && lines[i].pkg == "")
    ensures ExitOf(MarksOf(lines).refused, run, judge) == ExitRed
  {
    FailEventIsMarked(lines, i);
    FullTierExactly(lines, MarksOf(lines).refused, run, judge);
  }

  /** The stream says something failed, or a line of it could not be read. */
  predicate Marked(m: Marks) {
    m.failed != {} || m.pkgs != [] || m.builds != [] || m.refused
  }

  lemma {:induction false} MarksGrow(lines: seq<Line>, n: nat)
    requires n <= |lines| && Marked(MarksOf(lines[..n]))
    ensures Marked(MarksOf(lines))
    decreases |lines|
  {
    if n < |lines| {
      MarksGrow(lines[..|lines| - 1], n) by {
        assert lines[..|lines| - 1][..n] == lines[..n];
      }
    } else {
      assert lines[..n] == lines;
    }
  }

  lemma FailEventIsMarked(lines: seq<Line>, i: nat)
    requires i < |lines| && lines[i].Event?
    requires lines[i].action.FailAction? || (lines[i].action.BuildFailAction? && lines[i].pkg == "")
    ensures Marked(MarksOf(lines))
  {
    assert lines[..i + 1][..i] == lines[..i];
    MarksGrow(lines, i + 1);
  }
}
