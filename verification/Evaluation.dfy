/** evaluate: one pass over a run's results gathers what the registry excuses, a second judges the
    failures it does not list. */
module Evaluation {
  import opened Quarantine
  import opened QuarantineRules

  /** What the first pass over the results gathers. */
  datatype Gathered = Gathered(
    red: bool, excused: nat, quarantined: set<string>, failing: seq<string>, outputs: map<string, string>)

  function Failing(results: seq<Result>): seq<string> {
    if results == [] then []
    else
      var r := results[|results| - 1];
      Failing(results[..|results| - 1]) + if r.status.Failed? then [r.test] else []
  }

  /** Result i reds the run already in the first pass. */
  predicate RedsAtOnce(run: Run, judge: Judge, i: nat)
    requires i < |run.results|
  {
    run.results[i].status.NoResult? ||
    (run.results[i].status.Failed? && run.results[i].test in run.entries && !Excuses(run, judge, i))
  }

  predicate RedSoFar(run: Run, judge: Judge, n: nat)
    requires n <= |run.results|
  {
    exists i :: 0 <= i < n && RedsAtOnce(run, judge, i)
  }

  predicate ExcusedSoFar(run: Run, judge: Judge, n: nat, t: string)
    requires n <= |run.results|
  {
    exists i :: 0 <= i < n && run.results[i].test == t && Excuses(run, judge, i)
  }

  lemma RedOneMore(run: Run, judge: Judge, n: nat)
    requires n < |run.results|
    ensures RedSoFar(run, judge, n + 1) <==> RedSoFar(run, judge, n) || RedsAtOnce(run, judge, n)
  {
  }

  lemma ExcusedOneMore(run: Run, judge: Judge, n: nat, t: string)
    requires n < |run.results|
    ensures ExcusedSoFar(run, judge, n + 1, t) <==>
            ExcusedSoFar(run, judge, n, t) || (run.results[n].test == t && Excuses(run, judge, n))
  {
  }

  ghost predicate GatheredFrom(run: Run, judge: Judge, n: nat, g: Gathered)
    requires n <= |run.results|
  {
    (g.red <==> RedSoFar(run, judge, n)) && g.excused == ExcusedCount(run, judge, n) &&
    (forall t :: t in g.quarantined <==> ExcusedSoFar(run, judge, n, t)) &&
    g.failing == Failing(run.results[..n]) &&
    (forall k :: 0 <= k < |g.failing| ==> g.failing[k] in g.outputs) &&
    (forall t :: t in g.outputs ==> g.outputs[t] == OutputOf(run.results[..n], t))
  }

  /** One result of the first pass. */
  method GatherOne(run: Run, judge: Judge, n: nat, g: Gathered) returns (g': Gathered)
    requires n < |run.results| && GatheredFrom(run, judge, n, g)
    ensures GatheredFrom(run, judge, n + 1, g')
  {
    var r := run.results[n];
    assert run.results[..n + 1][..n] == run.results[..n];
    RedOneMore(run, judge, n);
    forall t
      ensures ExcusedSoFar(run, judge, n + 1, t) <==>
              ExcusedSoFar(run, judge, n, t) || (r.test == t && Excuses(run, judge, n))
    {
      ExcusedOneMore(run, judge, n, t);
    }
    g' := g;
    if r.status.Passed? || r.status.Skipped? {
      return;
    }
    if r.status.NoResult? {
      assert RedsAtOnce(run, judge, n);
      return g.(red := true);
    }
    g' := g.(failing := g.failing + [r.test], outputs := g.outputs[r.test := r.output]);
    if r.test !in run.entries {
      return;
    }
    var e := run.entries[r.test];
    if judge.Raced(r.output) || run.tier.Full? || e.pkg in run.edited || !judge.matches(r.output, e.sig) {
      assert RedsAtOnce(run, judge, n);
      return g'.(red := true);
    }
    assert Excuses(run, judge, n);
    return g'.(quarantined := g.quarantined + {r.test}, excused := g.excused + 1);
  }

  function FilterBelow(ts: seq<string>, t: string): seq<string> {
    if ts == [] then []
    else FilterBelow(ts[..|ts| - 1], t) + if Below(ts[|ts| - 1], t) then [ts[|ts| - 1]] else []
  }

  lemma {:induction false} KidsAreFailingBelow(results: seq<Result>, t: string)
    ensures FilterBelow(Failing(results), t) == Kids(results, t)
  {
    if results != [] {
      var n := |results| - 1;
      KidsAreFailingBelow(results[..n], t);
      var before := Failing(results[..n]);
      if results[n].status.Failed? {
        assert (before + [results[n].test])[..|before|] == before;
      } else {
        assert before + [] == before && Kids(results[..n], t) + [] == Kids(results[..n], t);
      }
    }
  }

  /** The failing tests below u, in order. */
  method FindKids(failing: seq<string>, u: string) returns (kids: seq<string>)
    ensures kids == FilterBelow(failing, u)
  {
    kids := [];
    for i := 0 to |failing|
      invariant kids == FilterBelow(failing[..i], u)
    {
      assert failing[..i + 1][..i] == failing[..i];
      if Below(failing[i], u) {
        kids := kids + [failing[i]];
      }
    }
    assert failing[..|failing|] == failing;
  }

  /** Whether every kid of an unlisted parent is accounted for. */
  method FindCovered(run: Run, judge: Judge, g: Gathered, kids: seq<string>) returns (covered: bool)
    requires forall t :: t in g.quarantined <==> Quarantined(run, judge, t)
    ensures covered <==> kids != [] && forall k :: 0 <= k < |kids| ==> KidCovered(run, judge, kids, kids[k])
  {
    covered := |kids| > 0;
    for i := 0 to |kids|
      invariant covered ==> kids != []
      invariant covered ==> forall k :: 0 <= k < i ==> KidCovered(run, judge, kids, kids[k])
      invariant !covered ==> kids == []
    {
      var c := kids[i];
      if c in g.quarantined {
        continue;
      }
      var inner := false;
      if c !in run.entries {
        for j := 0 to |kids|
          invariant inner <==> exists k :: 0 <= k < j && Below(kids[k], c)
        {
          if Below(kids[j], c) {
            inner := true;
          }
        }
      }
      if !inner {
        assert !KidCovered(run, judge, kids, c);
        return false;
      }
    }
  }

  /** The verdict on one unlisted failure. */
  method JudgeUnlisted(run: Run, judge: Judge, g: Gathered, u: string) returns (red: bool)
    requires GatheredFrom(run, judge, |run.results|, g) && Fails(run, u)
    ensures
      var out := OutputOf(run.results, u);
      red <==> judge.Raced(out) || !Covered(run, judge, u) ||
               judge.ownFailure(NameOf(u), out, Outputs(run.results, Kids(run.results, u)))
  {
    assert run.results[..|run.results|] == run.results;
    FailingHas(run.results, u);
    var out := g.outputs[u];
    if judge.Raced(out) {
      return true;
    }
    KidsAreFailingBelow(run.results, u);
    var kids := FindKids(g.failing, u);
    assert forall t :: t in g.quarantined <==> Quarantined(run, judge, t);
    var covered := FindCovered(run, judge, g, kids);
    if !covered {
      return true;
    }
    forall k | 0 <= k < |kids|
      ensures kids[k] in g.outputs
    {
      KidsFail(run.results, u, kids[k]);
      FailingHas(run.results, kids[k]);
    }
    var kidOutputs := seq(|kids|, i requires 0 <= i < |kids| => g.outputs[kids[i]]);
    assert kidOutputs == Outputs(run.results, kids);
    red := judge.ownFailure(NameOf(u), out, kidOutputs);
  }

  lemma {:induction false} FailingHas(results: seq<Result>, t: string)
    ensures t in Failing(results) <==>
            exists i :: 0 <= i < |results| && results[i].status.Failed? && results[i].test == t
  {
    if results != [] {
      var n := |results| - 1;
      FailingHas(results[..n], t);
      if i :| 0 <= i < |results| && results[i].status.Failed? && results[i].test == t {
        assert i < n ==> results[..n][i] == results[i];
      }
      if i :| 0 <= i < n && results[..n][i].status.Failed? && results[..n][i].test == t {
        assert results[i] == results[..n][i];
      }
    }
  }

  /** evaluate: red exactly when the rules say so, with the number of directly excused failures. */
  method Evaluate(run: Run, judge: Judge) returns (red: bool, excused: nat)
    ensures red == Red(run, judge) && excused == ExcusedCount(run, judge, |run.results|)
    ensures red <==> RedByRule(run, judge)
    ensures excused > 0 <==> exists i :: 0 <= i < |run.results| && ForgivenAt(run, judge, i)
    ensures (forall i :: 0 <= i < |run.results| && run.results[i].status.Failed? ==> ForgivenAt(run, judge, i)) ==>
              excused == |FailedAt(run)|
  {
    RedExactly(run, judge);
    CountExactly(run, judge);
    red := RegistryReds(run);
    var g := Gathered(false, 0, {}, [], map[]);
    for i := 0 to |run.results|
      invariant GatheredFrom(run, judge, i, g)
    {
      g := GatherOne(run, judge, i, g);
    }
    excused := g.excused;
    red := red || g.red;
    var unlistedRed := false;
    for i := 0 to |run.results|
      invariant unlistedRed <==>
                exists k :: 0 <= k < i && run.results[k].status.Failed? &&
                            run.results[k].test !in run.entries && Reds(run, judge, k)
    {
      var r := run.results[i];
      if r.status.Failed? && r.test !in run.entries {
        assert FailsAs(run, i, r.test);
        var bad := JudgeUnlisted(run, judge, g, r.test);
        unlistedRed := unlistedRed || bad;
      }
    }
    RedInTwoPasses(run, judge);
    red := red || unlistedRed;
  }

  lemma RedInTwoPasses(run: Run, judge: Judge)
    ensures (exists i :: 0 <= i < |run.results| && Reds(run, judge, i)) <==>
            (exists i :: 0 <= i < |run.results| && RedsAtOnce(run, judge, i)) ||
            (exists i :: 0 <= i < |run.results| && run.results[i].status.Failed? &&
                         run.results[i].test !in run.entries && Reds(run, judge, i))
  {
    forall i | 0 <= i < |run.results|
      ensures RedsAtOnce(run, judge, i) ==> Reds(run, judge, i)
      ensures Reds(run, judge, i) ==>
                RedsAtOnce(run, judge, i) || (run.results[i].status.Failed? && run.results[i].test !in run.entries)
    {
    }
  }
}
