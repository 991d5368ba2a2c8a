/** Collecting a `go test -json` stream, line by line, into the results it makes. */
module TestStream {
  import opened Quarantine
  import opened TestEvents

  /** The tests on record are exactly those of the stream. */
  ghost predicate TestsAre(tests: map<string, Result>, lines: seq<Line>) {
    forall id :: TestIs(tests, lines, id)
  }

  predicate TestIs(tests: map<string, Result>, lines: seq<Line>, id: string) {
    (id in tests <==> id in MarksOf(lines).order) &&
    TestOf(lines, id) == if id in tests then tests[id] else Result(id, NoResult, "")
  }

  /** The package texts on record are exactly those of the stream. */
  ghost predicate TextsAre(text: map<string, string>, lines: seq<Line>) {
    forall p :: TextIs(text, lines, p)
  }

  predicate TextIs(text: map<string, string>, lines: seq<Line>, p: string) {
    (p in text <==> p in MarksOf(lines).seen) && TextOf(lines, Package(p)) == if p in text then text[p] else ""
  }

  /** A test's result after one event about it. */
  function After(t: Result, e: Line): Result
    requires e.Event?
  {
    match e.action
    case OutputAction => t.(output := t.output + e.output)
    case PassAction => if t.status.Failed? then t else t.(status := Passed)
    case SkipAction => if t.status.Failed? then t else t.(status := Skipped)
    case FailAction => t.(status := Failed)
    case _ => t
  }

  lemma MarksSnoc(lines: seq<Line>, e: Line)
    ensures MarksOf(lines + [e]) == Mark(MarksOf(lines), e)
  {
    assert (lines + [e])[..|lines|] == lines;
  }

  /** One more event, seen from one test. */
  lemma TestOfSnoc(lines: seq<Line>, e: Line, id: string)
    ensures TestOf(lines + [e], id) == if Concerns(e, Test(id)) then After(TestOf(lines, id), e) else TestOf(lines, id)
    ensures id in MarksOf(lines + [e]).order <==> id in MarksOf(lines).order || Concerns(e, Test(id))
  {
    assert (lines + [e])[..|lines|] == lines;
  }

  /** One more event, seen from one package. */
  lemma TextOfSnoc(lines: seq<Line>, e: Line, p: string)
    ensures TextOf(lines + [e], Package(p)) ==
            if Speaks(e, Package(p)) then TextOf(lines, Package(p)) + e.output else TextOf(lines, Package(p))
    ensures p in MarksOf(lines + [e]).seen <==> p in MarksOf(lines).seen || Speaks(e, Package(p))
  {
    assert (lines + [e])[..|lines|] == lines;
  }

  /** An event that concerns no test leaves the tests as they are. */
  lemma TestsStay(tests: map<string, Result>, lines: seq<Line>, e: Line)
    requires TestsAre(tests, lines) && forall id :: !Concerns(e, Test(id))
    ensures TestsAre(tests, lines + [e])
  {
    forall id
      ensures TestIs(tests, lines + [e], id)
    {
      assert TestIs(tests, lines, id);
      TestOfSnoc(lines, e, id);
    }
  }

  lemma TestsGrow(tests: map<string, Result>, lines: seq<Line>, e: Line)
    requires TestsAre(tests, lines) && e.Event? && Concerns(e, Test(IdOf(e)))
    ensures
      var id := IdOf(e);
      TestsAre(tests[id := After(if id in tests then tests[id] else Result(id, NoResult, ""), e)], lines + [e])
  {
    var key := IdOf(e);
    var after := tests[key := After(if key in tests then tests[key] else Result(key, NoResult, ""), e)];
    forall id
      ensures TestIs(after, lines + [e], id)
    {
      assert TestIs(tests, lines, id);
      TestOfSnoc(lines, e, id);
    }
  }

  /** An event that says nothing about a package outside its tests leaves the texts as they are. */
  lemma TextsStay(text: map<string, string>, lines: seq<Line>, e: Line)
    requires TextsAre(text, lines) && forall p :: !Speaks(e, Package(p))
    ensures TextsAre(text, lines + [e])
  {
    forall p
      ensures TextIs(text, lines + [e], p)
    {
      assert TextIs(text, lines, p);
      TextOfSnoc(lines, e, p);
    }
  }

  lemma TextsGrow(text: map<string, string>, lines: seq<Line>, e: Line)
    requires TextsAre(text, lines) && e.Event? && Speaks(e, Package(e.pkg))
    ensures TextsAre(text[e.pkg := (if e.pkg in text then text[e.pkg] else "") + e.output], lines + [e])
  {
    var after := text[e.pkg := (if e.pkg in text then text[e.pkg] else "") + e.output];
    forall p
      ensures TextIs(after, lines + [e], p)
    {
      assert TextIs(text, lines, p);
      TextOfSnoc(lines, e, p);
    }
  }

  class Collector {
    var tests: map<string, Result>
    var order: seq<string>
    var errs: nat
    var pkgOrder: seq<string>
    var pkgHasFail: set<string>
    var pkgText: map<string, string>
    var pkgSeen: seq<string>
    var buildFail: seq<string>
    ghost var lines: seq<Line>

    /** What was marked, in the order it was. */
    ghost predicate MarksAre(m: Marks)
      reads this`order, this`pkgSeen, this`pkgHasFail, this`pkgOrder, this`buildFail, this`errs
    {
      order == m.order && pkgSeen == m.seen && pkgHasFail == m.withFail && pkgOrder == m.pkgs &&
      buildFail == m.builds &&
      (errs > 0) == m.refused
    }

    /** The collector has kept exactly what the stream says. */
    ghost predicate Valid()
      reads this
    {
      TestsAre(tests, lines) && TextsAre(pkgText, lines) && MarksAre(MarksOf(lines))
    }

    constructor ()
      ensures Valid() && lines == []
    {
      tests, order, errs, pkgOrder, pkgHasFail := map[], [], 0, [], {};
      pkgText, pkgSeen, buildFail, lines := map[], [], [], [];
    }

    /** line: one line of the stream. */
    method Take(e: Line)
      requires Valid()
      modifies this
      ensures Valid() && lines == old(lines) + [e]
    {
      MarksSnoc(lines, e);
      if WellFormed(e) {
        if e.test == "" {
          TestsStay(tests, lines, e);
          TakePackage(e);
        } else {
          TextsStay(pkgText, lines, e);
          TakeTest(e);
        }
      } else {
        TestsStay(tests, lines, e);
        TextsStay(pkgText, lines, e);
        TakeOther(e);
      }
      lines := lines + [e];
    }

    /** A blank line, a build event, or a line that is refused. */
    method TakeOther(e: Line)
      requires !WellFormed(e) && MarksAre(MarksOf(lines))
      modifies this`errs, this`buildFail
      ensures MarksAre(Mark(MarksOf(lines), e))
    {
      if e.Blank? {
        return;
      }
      if e.NotJson? {
        errs := errs + 1;
        return;
      }
      if IsBuildEvent(e) {
        if e.action.BuildFailAction? {
          buildFail := buildFail + [e.importPath];
        }
        return;
      }
      errs := errs + 1;
    }

    method TakePackage(e: Line)
      requires WellFormed(e) && e.test == "" && TextsAre(pkgText, lines) && MarksAre(MarksOf(lines))
      modifies this`pkgSeen, this`pkgText, this`pkgOrder
      ensures TextsAre(pkgText, lines + [e]) && MarksAre(Mark(MarksOf(lines), e))
    {
      if e.action.OutputAction? {
        assert TextIs(pkgText, lines, e.pkg);
        TextsGrow(pkgText, lines, e);
        if e.pkg !in pkgText {
          pkgSeen := pkgSeen + [e.pkg];
        }
        pkgText := pkgText[e.pkg := (if e.pkg in pkgText then pkgText[e.pkg] else "") + e.output];
      } else {
        TextsStay(pkgText, lines, e);
      }
      if e.action.FailAction? {
        if e.pkg !in pkgOrder {
          pkgOrder := pkgOrder + [e.pkg];
        }
      }
    }

    method TakeTest(e: Line)
      requires WellFormed(e) && e.test != "" && TestsAre(tests, lines) && MarksAre(MarksOf(lines))
      modifies this`tests, this`order, this`pkgHasFail
      ensures TestsAre(tests, lines + [e]) && MarksAre(Mark(MarksOf(lines), e))
    {
      TestsGrow(tests, lines, e);
      var id := IdOf(e);
      assert TestIs(tests, lines, id);
      ghost var had := tests;
      if id !in tests {
        tests := tests[id := Result(id, NoResult, "")];
        order := order + [id];
      }
      var t := tests[id];
      match e.action {
        case OutputAction => t := t.(output := t.output + e.output);
        case PassAction =>
          if !t.status.Failed? {
            t := t.(status := Passed);
          }
        case SkipAction =>
          if !t.status.Failed? {
            t := t.(status := Skipped);
          }
        case FailAction =>
          t := t.(status := Failed);
          pkgHasFail := pkgHasFail + {e.pkg};
        case _ =>
      }
      tests := tests[id := t];
      assert tests == had[id := t];
    }

    /** results: exactly the results of the stream. */
    method Results(judge: Judge) returns (rs: seq<Result>)
      requires Valid()
      ensures rs == ResultsOf(lines, judge)
    {
      rs := [];
      for i := 0 to |order|
        invariant rs == Recorded(lines, order)[..i]
      {
        assert TestIs(tests, lines, order[i]);
        rs := rs + [tests[order[i]]];
      }
      var raced;
      rs, raced := AddRaces(rs, judge);
      rs := AddPackages(rs, raced);
    }

    method AddRaces(before: seq<Result>, judge: Judge) returns (rs: seq<Result>, raced: set<string>)
      requires TextsAre(pkgText, lines) && pkgSeen == MarksOf(lines).seen
      ensures rs == before + RaceFailures(lines, pkgSeen, judge) && raced == RacedAmong(lines, pkgSeen, judge)
    {
      rs, raced := before, {};
      assert before + [] == before;
      for i := 0 to |pkgSeen|
        invariant rs == before + RaceFailures(lines, pkgSeen[..i], judge)
        invariant forall p :: p in raced <==> p in pkgSeen[..i] && RacesOutside(lines, p, judge)
      {
        var p := pkgSeen[i];
        assert TextIs(pkgText, lines, p);
        assert pkgSeen[..i + 1][..i] == pkgSeen[..i];
        assert pkgSeen[..i + 1] == pkgSeen[..i] + [p];
        if judge.Raced(pkgText[p]) {
          raced := raced + {p};
          rs := rs + [RaceFailure(p, judge.marker(pkgText[p]))];
        }
      }
      assert pkgSeen[..|pkgSeen|] == pkgSeen;
    }

    method AddPackages(before: seq<Result>, raced: set<string>) returns (rs: seq<Result>)
      ensures rs == before + PackageFailures(pkgOrder, pkgHasFail + raced) + BuildFailures(buildFail)
    {
      rs := before;
      assert before + [] == before;
      for i := 0 to |pkgOrder|
        invariant rs == before + PackageFailures(pkgOrder[..i], pkgHasFail + raced)
      {
        var p := pkgOrder[i];
        assert pkgOrder[..i + 1][..i] == pkgOrder[..i];
        if p !in pkgHasFail && p !in raced {
          rs := rs + [PackageFailure(p)];
        }
      }
      assert pkgOrder[..|pkgOrder|] == pkgOrder;
      ghost var done := rs;
      for i := 0 to |buildFail|
        invariant rs == done + BuildFailures(buildFail)[..i]
      {
        rs := rs + [BuildFailure(buildFail[i])];
      }
    }
  }
}
