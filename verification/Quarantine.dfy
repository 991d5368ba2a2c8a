/** The flake-quarantine decision over one run's test results. */
module Quarantine {
  datatype Tier = Fast | Full

  datatype Status = Passed | Skipped | Failed | NoResult

  datatype Result = Result(test: string, status: Status, output: string)

  datatype Entry = Entry(pkg: string, sig: string, expired: bool)

  /** The text judgements the decision is made from, whatever they are: the race or sanitizer
      marker a text carries if any, a recorded signature, and a parent's own line beside its
      subtests'. */
  datatype Judge = Judge(
    marker: string -> string, matches: (string, string) -> bool, ownFailure: (string, string, seq<string>) -> bool)
  {
    predicate Raced(text: string) {
      marker(text) != ""
    }
  }

  /** The run: a registry (whether it parsed, and its entries by test), the tier, the packages the
      change edits, and the results. */
  datatype Run = Run(
    registryOk: bool, entries: map<string, Entry>, tier: Tier, edited: set<string>, results: seq<Result>)

  predicate Below(c: string, t: string): (below: bool)
    ensures below <==> t + "/" <= c
  {
    |t| < |c| && c[..|t|] == t && c[|t|] == '/'
  }

  /** The parts of a path of subtests nest. */
  lemma BelowIsTransitive(a: string, b: string, c: string)
    requires Below(a, b) && Below(b, c)
    ensures Below(a, c)
  {
    assert a[..|c|] == a[..|b|][..|c|];
  }

  predicate Fails(run: Run, t: string) {
    exists i :: 0 <= i < |run.results| && FailsAs(run, i, t)
  }

  predicate FailsAs(run: Run, i: nat, t: string)
    requires i < |run.results|
  {
    run.results[i].status.Failed? && run.results[i].test == t
  }

  /** The registry excuses failure i directly. */
  predicate Excuses(run: Run, judge: Judge, i: nat)
    requires i < |run.results|
  {
    var r := run.results[i];
    r.status.Failed? && r.test in run.entries && !judge.Raced(r.output) && run.tier.Fast? &&
    run.entries[r.test].pkg !in run.edited && judge.matches(r.output, run.entries[r.test].sig)
  }

  /** Some failure of test t was excused. */
  predicate Quarantined(run: Run, judge: Judge, t: string) {
    exists i :: 0 <= i < |run.results| && run.results[i].test == t && Excuses(run, judge, i)
  }

  /** The failing tests below t, in result order, counted with repetition. */
  function Kids(results: seq<Result>, t: string): seq<string> {
    if results == [] then []
    else
      var r := results[|results| - 1];
      Kids(results[..|results| - 1], t) + if r.status.Failed? && Below(r.test, t) then [r.test] else []
  }

  lemma {:induction false} KidsFail(results: seq<Result>, t: string, c: string)
    ensures c in Kids(results, t) <==>
            Below(c, t) && exists i :: 0 <= i < |results| && results[i].status.Failed? && results[i].test == c
  {
    if results != [] {
      var n := |results| - 1;
      KidsFail(results[..n], t, c);
      if i :| 0 <= i < |results| && results[i].status.Failed? && results[i].test == c {
        assert i < n ==> results[..n][i] == results[i];
      }
      if i :| 0 <= i < n && results[..n][i].status.Failed? && results[..n][i].test == c {
        assert results[i] == results[..n][i];
      }
    }
  }

  /** Kid c of an unlisted parent is accounted for: excused, or itself an unlisted parent with a
      failing subtest. */
  predicate KidCovered(run: Run, judge: Judge, kids: seq<string>, c: string) {
    Quarantined(run, judge, c) || (c !in run.entries && exists k :: 0 <= k < |kids| && Below(kids[k], c))
  }

  predicate Covered(run: Run, judge: Judge, t: string) {
    var kids := Kids(run.results, t);
    kids != [] && forall k :: 0 <= k < |kids| ==> KidCovered(run, judge, kids, kids[k])
  }

  /** The output kept for a failing test: that of its last failure. */
  function OutputOf(results: seq<Result>, t: string): string {
    if results == [] then ""
    else
      var r := results[|results| - 1];
      if r.status.Failed? && r.test == t then r.output else OutputOf(results[..|results| - 1], t)
  }

  function Outputs(results: seq<Result>, ts: seq<string>): seq<string> {
    seq(|ts|, i requires 0 <= i < |ts| => OutputOf(results, ts[i]))
  }

  /** The name part of a test id, after its package. */
  function NameOf(t: string): string {
    if t == "" then "" else if |t| >= 2 && t[0] == ':' && t[1] == ':' then t[2..] else NameOf(t[1..])
  }

  /** Result i reds the run on its own. */
  predicate Reds(run: Run, judge: Judge, i: nat)
    requires i < |run.results|
  {
    var r := run.results[i];
    match r.status
    case NoResult => true
    case Failed =>
      if r.test in run.entries then !Excuses(run, judge, i)
      else
        var out := OutputOf(run.results, r.test);
        judge.Raced(out) || !Covered(run, judge, r.test) ||
        judge.ownFailure(NameOf(r.test), out, Outputs(run.results, Kids(run.results, r.test)))
    case _ => false
  }

  predicate RegistryReds(run: Run) {
    !run.registryOk || exists t :: t in run.entries && run.entries[t].expired
  }

  predicate Red(run: Run, judge: Judge) {
    RegistryReds(run) || exists i :: 0 <= i < |run.results| && Reds(run, judge, i)
  }

  function ExcusedCount(run: Run, judge: Judge, n: nat): nat
    requires n <= |run.results|
  {
    if n == 0 then 0 else ExcusedCount(run, judge, n - 1) + if Excuses(run, judge, n - 1) then 1 else 0
  }

  lemma {:induction false} CountIsPositive(run: Run, judge: Judge, n: nat, i: nat)
    requires i < n <= |run.results| && Excuses(run, judge, i)
    ensures ExcusedCount(run, judge, n) > 0
  {
    if i < n - 1 {
      CountIsPositive(run, judge, n - 1, i);
    }
  }

  /** A bound on the length of every failing test's id. */
  function LongestFailing(results: seq<Result>): (m: nat)
    ensures forall i :: 0 <= i < |results| && results[i].status.Failed? ==> |results[i].test| <= m
  {
    if results == [] then 0
    else
      var m, r := LongestFailing(results[..|results| - 1]), results[|results| - 1];
      assert forall i :: 0 <= i < |results| - 1 ==> results[i] == results[..|results| - 1][i];
      if r.status.Failed? && |r.test| > m then |r.test| else m
  }

  /** Of a run that is not red, every failure is excused or stands above one that is: follow
      uncovered subtests down, each longer than the last, to one the registry excused. */
  lemma {:induction false} ExcusedAtOrBelow(run: Run, judge: Judge, t: string) returns (q: string)
    requires !Red(run, judge) && Fails(run, t)
    ensures Quarantined(run, judge, q) && (q == t || Below(q, t))
    decreases LongestFailing(run.results) - |t|
  {
    var i :| 0 <= i < |run.results| && FailsAs(run, i, t);
    assert !Reds(run, judge, i);
    if t in run.entries {
      return t;
    }
    var kids := Kids(run.results, t);
    assert kids[0] in kids && KidCovered(run, judge, kids, kids[0]);
    KidsFail(run.results, t, kids[0]);
    var j :| 0 <= j < |run.results| && run.results[j].status.Failed? && run.results[j].test == kids[0];
    assert FailsAs(run, j, kids[0]);
    q := ExcusedAtOrBelow(run, judge, kids[0]);
    if q != kids[0] {
      BelowIsTransitive(q, kids[0], t);
    }
  }

  /** The full tier reds on every failure, whatever the registry lists. */
  lemma FullTierReds(run: Run, judge: Judge, t: string)
    requires run.tier.Full? && Fails(run, t)
    ensures Red(run, judge)
  {
    if !Red(run, judge) {
      var q := ExcusedAtOrBelow(run, judge, t);
      assert false;
    }
  }

  /** A run with failures that is not red has one the registry excused directly, so the branch
      that reds a run with failures and none excused is never taken. */
  lemma SomethingIsExcused(run: Run, judge: Judge, t: string)
    requires !Red(run, judge) && Fails(run, t)
    ensures ExcusedCount(run, judge, |run.results|) > 0
  {
    var q := ExcusedAtOrBelow(run, judge, t);
    var i :| 0 <= i < |run.results| && run.results[i].test == q && Excuses(run, judge, i);
    CountIsPositive(run, judge, |run.results|, i);
  }

  /** No failing output with a race or sanitizer report is ever excused: kept for the test's last
      failure, or seen directly for a listed test. */
  lemma RaceAlwaysReds(run: Run, judge: Judge, i: nat)
    requires i < |run.results| && run.results[i].status.Failed?
    requires judge.Raced(if run.results[i].test in run.entries then run.results[i].output
                         else OutputOf(run.results, run.results[i].test))
    ensures Red(run, judge)
  {
    assert Reds(run, judge, i);
  }
}
