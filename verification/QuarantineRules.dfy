/** When a run is red, as its owner would say it: no coverage of parents by subtests, only which
    failures stand on their own. */
module QuarantineRules {
  import opened Quarantine

  /** Failure i is of a listed test and the registry's terms for it are met. */
  predicate ForgivenAt(run: Run, judge: Judge, i: nat)
    requires i < |run.results|
  {
    var r := run.results[i];
    r.status.Failed? && r.test in run.entries && !BreaksTerms(run, judge, r, run.entries[r.test])
  }

  /** What the registry never forgives: the full tier, a race, an edited package, and an output
      without the recorded signature. */
  predicate BreaksTerms(run: Run, judge: Judge, r: Result, e: Entry) {
    run.tier.Full? || judge.Raced(r.output) || e.pkg in run.edited || !judge.matches(r.output, e.sig)
  }

  /** Where the failures stand. */
  function FailedAt(run: Run): set<nat> {
    set i: nat | i < |run.results| && run.results[i].status.Failed?
  }

  predicate FailsBelow(run: Run, t: string) {
    exists k :: 0 <= k < |run.results| && IsBelow(run, t, k)
  }

  predicate IsBelow(run: Run, t: string, k: nat)
    requires k < |run.results|
  {
    run.results[k].status.Failed? && Below(run.results[k].test, t)
  }

  /** k is the last failure of t. */
  predicate LastFailure(run: Run, k: nat, t: string) {
    k < |run.results| && FailsAs(run, k, t) && forall j :: k < j < |run.results| ==> !FailsAs(run, j, t)
  }

  predicate ColonsAt(t: string, n: nat) {
    n + 1 < |t| && t[n] == ':' && t[n + 1] == ':'
  }

  /** name is what follows the first double colon of t; nothing, when there is none. */
  predicate NamePart(t: string, name: string) {
    (exists n :: 0 <= n < |t| && FirstColons(t, n) && name == t[n + 2..]) ||
    ((forall n :: 0 <= n < |t| ==> !ColonsAt(t, n)) && name == "")
  }

  predicate FirstColons(t: string, n: nat) {
    ColonsAt(t, n) && forall m :: 0 <= m < n ==> !ColonsAt(t, m)
  }

  predicate Increasing(ks: seq<nat>) {
    forall i, j :: 0 <= i < j < |ks| ==> ks[i] < ks[j]
  }

  /** ks are the failures below t, in result order. */
  ghost predicate ListsBelow(run: Run, t: string, ks: seq<nat>) {
    Increasing(ks) && forall k: nat :: k in ks <==> k < |run.results| && IsBelow(run, t, k)
  }

  ghost predicate LastOutput(run: Run, t: string, out: string) {
    exists k: nat :: LastFailure(run, k, t) && run.results[k].output == out
  }

  /** outs are the outputs of the tests that failed at ks, each its last. */
  ghost predicate OutputsAt(run: Run, ks: seq<nat>, outs: seq<string>) {
    |outs| == |ks| &&
    forall j :: 0 <= j < |ks| ==> ks[j] < |run.results| && LastOutput(run, run.results[ks[j]].test, outs[j])
  }

  /** The judge finds a line of t's own beside those of the failures below it. */
  ghost predicate OwnLine(run: Run, judge: Judge, t: string) {
    exists name, out, ks, outs ::
      NamePart(t, name) && LastOutput(run, t, out) && ListsBelow(run, t, ks) && OutputsAt(run, ks, outs) &&
      judge.ownFailure(name, out, outs)
  }

  ghost predicate RacedLast(run: Run, judge: Judge, t: string) {
    exists out :: LastOutput(run, t, out) && judge.Raced(out)
  }

  /** Result i is red by itself: it never finished; it is listed and breaks the registry's terms; or
      it is not listed and nothing failed below it, it raced, or it has a line of its own. */
  ghost predicate RedAlone(run: Run, judge: Judge, i: nat)
    requires i < |run.results|
  {
    var r := run.results[i];
    r.status.NoResult? ||
    (r.status.Failed? &&
     if r.test in run.entries then BreaksTerms(run, judge, r, run.entries[r.test])
     else !FailsBelow(run, r.test) || RacedLast(run, judge, r.test) || OwnLine(run, judge, r.test))
  }

  ghost predicate RedByRule(run: Run, judge: Judge) {
    !run.registryOk || (exists t :: t in run.entries && run.entries[t].expired) ||
    exists i :: 0 <= i < |run.results| && RedAlone(run, judge, i)
  }

  // The parts

  lemma {:induction false} LastFailureOf(run: Run, t: string, n: nat) returns (k: nat)
    requires n <= |run.results| && exists i :: 0 <= i < n && FailsAs(run, i, t)
    ensures k < n && FailsAs(run, k, t) && forall j :: k < j < n ==> !FailsAs(run, j, t)
  {
    if FailsAs(run, n - 1, t) {
      return n - 1;
    }
    k := LastFailureOf(run, t, n - 1);
  }

  lemma {:induction false} OutputIsLast(run: Run, t: string, k: nat, n: nat)
    requires k < n <= |run.results| && FailsAs(run, k, t) && forall j :: k < j < n ==> !FailsAs(run, j, t)
    ensures OutputOf(run.results[..n], t) == run.results[k].output
  {
    assert run.results[..n][..n - 1] == run.results[..n - 1];
    if k < n - 1 {
      assert !FailsAs(run, n - 1, t);
      OutputIsLast(run, t, k, n - 1);
    }
  }

  /** The output kept for a failing test is its last. */
  lemma LastOutputIs(run: Run, t: string, out: string)
    requires Fails(run, t)
    ensures LastOutput(run, t, out) <==> out == OutputOf(run.results, t)
  {
    var n := |run.results|;
    assert run.results[..n] == run.results;
    var k := LastFailureOf(run, t, n);
    assert LastFailure(run, k, t);
    OutputIsLast(run, t, k, n);
    if LastOutput(run, t, out) {
      var k': nat :| LastFailure(run, k', t) && run.results[k'].output == out;
      OutputIsLast(run, t, k', n);
    }
  }

  lemma {:induction false} NameOfCuts(t: string)
    ensures (exists n :: 0 <= n < |t| && FirstColons(t, n) && NameOf(t) == t[n + 2..]) ||
            ((forall n :: 0 <= n < |t| ==> !ColonsAt(t, n)) && NameOf(t) == "")
  {
    if t == "" {
    } else if ColonsAt(t, 0) {
      assert FirstColons(t, 0);
    } else {
      NameOfCuts(t[1..]);
      if n :| 0 <= n < |t[1..]| && FirstColons(t[1..], n) && NameOf(t[1..]) == t[1..][n + 2..] {
        ShiftColons(t, n);
        assert t[1..][n + 2..] == t[n + 3..];
      } else {
        forall n | 0 <= n < |t|
          ensures !ColonsAt(t, n)
        {
          if n > 0 {
            assert !ColonsAt(t[1..], n - 1) || n == |t|;
          }
        }
      }
    }
  }

  lemma ShiftColons(t: string, n: nat)
    requires t != "" && !ColonsAt(t, 0) && FirstColons(t[1..], n)
    ensures FirstColons(t, n + 1)
  {
    forall m | 0 <= m < n + 1
      ensures !ColonsAt(t, m)
    {
      if m > 0 {
        assert !ColonsAt(t[1..], m - 1);
      }
    }
  }

  lemma NamePartIs(t: string, name: string)
    ensures NamePart(t, name) <==> name == NameOf(t)
  {
    NameOfCuts(t);
    if NamePart(t, name) {
      if n :| 0 <= n < |t| && FirstColons(t, n) && name == t[n + 2..] {
        if m :| 0 <= m < |t| && FirstColons(t, m) && NameOf(t) == t[m + 2..] {
          assert m == n;
        }
      }
    }
  }

  function KidsAt(results: seq<Result>, t: string): (ks: seq<nat>)
    ensures forall j :: 0 <= j < |ks| ==> ks[j] < |results|
  {
    if results == [] then []
    else
      var n := |results| - 1;
      KidsAt(results[..n], t) + if results[n].status.Failed? && Below(results[n].test, t) then [n] else []
  }

  lemma {:induction false} KidsAtAre(results: seq<Result>, t: string)
    ensures
      var ks := KidsAt(results, t);
      Increasing(ks) && |Kids(results, t)| == |ks| &&
      (forall j :: 0 <= j < |ks| ==> Kids(results, t)[j] == results[ks[j]].test) &&
      forall k: nat :: k in ks <==> k < |results| && results[k].status.Failed? && Below(results[k].test, t)
  {
    if results != [] {
      KidsAtAre(results[..|results| - 1], t);
    }
  }

  lemma {:induction false} SameIncreasing(a: seq<nat>, b: seq<nat>)
    requires Increasing(a) && Increasing(b) && forall k: nat :: k in a <==> k in b
    ensures a == b
    decreases |a|
  {
    if a == [] {
      if b != [] {
        HasFirst(b);
        assert false;
      }
    } else {
      assert a[|a| - 1] in a && b != [];
      var m, n := |a| - 1, |b| - 1;
      assert b[n] in b;
      LastIsMost(a, b[n]);
      LastIsMost(b, a[m]);
      forall k: nat
        ensures k in a[..m] <==> k in b[..n]
      {
        assert a == a[..m] + [a[m]] && b == b[..n] + [b[n]];
        assert (k in a <==> k in a[..m] || k == a[m]) && (k in b <==> k in b[..n] || k == b[n]);
      }
      SameIncreasing(a[..m], b[..n]);
    }
  }

  lemma HasFirst(b: seq<nat>)
    requires b != []
    ensures exists k: nat :: k in b
  {
    assert b[0] in b;
  }

  lemma LastIsMost(a: seq<nat>, k: nat)
    requires Increasing(a) && k in a
    ensures k <= a[|a| - 1]
  {
  }

  lemma ListsBelowIs(run: Run, t: string, ks: seq<nat>)
    ensures ListsBelow(run, t, ks) <==> ks == KidsAt(run.results, t)
  {
    KidsAtAre(run.results, t);
    if ListsBelow(run, t, ks) {
      SameIncreasing(ks, KidsAt(run.results, t));
    }
  }

  lemma OutputsAtAre(run: Run, t: string, outs: seq<string>)
    ensures OutputsAt(run, KidsAt(run.results, t), outs) <==> outs == Outputs(run.results, Kids(run.results, t))
  {
    KidsAtAre(run.results, t);
    var ks, kids := KidsAt(run.results, t), Kids(run.results, t);
    forall j | 0 <= j < |ks|
      ensures forall out :: LastOutput(run, kids[j], out) <==> out == OutputOf(run.results, kids[j])
    {
      assert ks[j] in ks && FailsAs(run, ks[j], kids[j]);
      forall out
        ensures LastOutput(run, kids[j], out) <==> out == OutputOf(run.results, kids[j])
      {
        LastOutputIs(run, kids[j], out);
      }
    }
    var all := Outputs(run.results, kids);
    if OutputsAt(run, ks, outs) {
      assert forall j :: 0 <= j < |ks| ==> outs[j] == all[j];
    }
  }

  lemma OwnLineIs(run: Run, judge: Judge, t: string)
    requires Fails(run, t)
    ensures OwnLine(run, judge, t) <==>
            judge.ownFailure(NameOf(t), OutputOf(run.results, t), Outputs(run.results, Kids(run.results, t)))
  {
    var ks, all := KidsAt(run.results, t), Outputs(run.results, Kids(run.results, t));
    NamePartIs(t, NameOf(t));
    LastOutputIs(run, t, OutputOf(run.results, t));
    ListsBelowIs(run, t, ks);
    OutputsAtAre(run, t, all);
    if OwnLine(run, judge, t) {
      var name, out, ks', outs :|
        NamePart(t, name) && LastOutput(run, t, out) && ListsBelow(run, t, ks') && OutputsAt(run, ks', outs) &&
        judge.ownFailure(name, out, outs);
      NamePartIs(t, name);
      LastOutputIs(run, t, out);
      ListsBelowIs(run, t, ks');
      OutputsAtAre(run, t, outs);
    }
  }

  lemma RacedLastIs(run: Run, judge: Judge, t: string)
    requires Fails(run, t)
    ensures RacedLast(run, judge, t) <==> judge.Raced(OutputOf(run.results, t))
  {
    LastOutputIs(run, t, OutputOf(run.results, t));
    if out :| LastOutput(run, t, out) && judge.Raced(out) {
      LastOutputIs(run, t, out);
    }
  }

  lemma ExcusesIsForgiven(run: Run, judge: Judge, i: nat)
    requires i < |run.results|
    ensures Excuses(run, judge, i) <==> ForgivenAt(run, judge, i)
  {
  }

  lemma FailsBelowIs(run: Run, t: string)
    ensures FailsBelow(run, t) <==> Kids(run.results, t) != []
  {
    KidsAtAre(run.results, t);
    var ks := KidsAt(run.results, t);
    if ks != [] {
      assert ks[0] in ks && IsBelow(run, t, ks[0]);
    }
    if k :| 0 <= k < |run.results| && IsBelow(run, t, k) {
      assert k in ks;
    }
  }

  // Coverage comes to the same

  /** A kid nothing accounts for is red itself: it is listed and not forgiven, or has nothing
      failing below it. */
  lemma UncoveredKidIsRed(run: Run, judge: Judge, t: string, k: nat) returns (i: nat)
    requires k < |Kids(run.results, t)| && !KidCovered(run, judge, Kids(run.results, t), Kids(run.results, t)[k])
    ensures i < |run.results| && RedAlone(run, judge, i)
  {
    var kids := Kids(run.results, t);
    var c := kids[k];
    KidsAtAre(run.results, t);
    i := KidsAt(run.results, t)[k];
    assert i in KidsAt(run.results, t) && FailsAs(run, i, c);
    if c in run.entries {
      ExcusesIsForgiven(run, judge, i);
    } else if FailsBelow(run, c) {
      BelowKidIsKid(run, t, c);
      assert false;
    }
  }

  /** What fails below a test below t is below t. */
  lemma BelowKidIsKid(run: Run, t: string, c: string)
    requires Below(c, t) && FailsBelow(run, c)
    ensures
      var kids := Kids(run.results, t);
      exists m :: 0 <= m < |kids| && Below(kids[m], c)
  {
    var j :| 0 <= j < |run.results| && IsBelow(run, c, j);
    BelowIsTransitive(run.results[j].test, c, t);
    KidsFail(run.results, t, run.results[j].test);
    var kids := Kids(run.results, t);
    var m :| 0 <= m < |kids| && kids[m] == run.results[j].test;
    assert Below(kids[m], c);
  }

  /** A result that is red by the coverage rule is red alone, or one below it is. */
  lemma RedsIsRedSomewhere(run: Run, judge: Judge, i: nat) returns (k: nat)
    requires i < |run.results| && Reds(run, judge, i)
    ensures k < |run.results| && RedAlone(run, judge, k)
  {
    var r := run.results[i];
    k := i;
    if r.status.Failed? && r.test in run.entries {
      ExcusesIsForgiven(run, judge, i);
    } else if r.status.Failed? {
      assert FailsAs(run, i, r.test);
      RacedLastIs(run, judge, r.test);
      OwnLineIs(run, judge, r.test);
      FailsBelowIs(run, r.test);
      if !RedAlone(run, judge, i) {
        var kids := Kids(run.results, r.test);
        var j :| 0 <= j < |kids| && !KidCovered(run, judge, kids, kids[j]);
        k := UncoveredKidIsRed(run, judge, r.test, j);
      }
    }
  }

  lemma RedAloneReds(run: Run, judge: Judge, i: nat)
    requires i < |run.results| && RedAlone(run, judge, i)
    ensures Reds(run, judge, i)
  {
    var r := run.results[i];
    if r.status.Failed? && r.test in run.entries {
      ExcusesIsForgiven(run, judge, i);
    } else if r.status.Failed? {
      assert FailsAs(run, i, r.test);
      RacedLastIs(run, judge, r.test);
      OwnLineIs(run, judge, r.test);
      FailsBelowIs(run, r.test);
    }
  }

  /** The program's rule, with its coverage of parents by subtests, reds exactly the runs the
      plain rules red. */
  lemma RedExactly(run: Run, judge: Judge)
    ensures Red(run, judge) <==> RedByRule(run, judge)
  {
    if i :| 0 <= i < |run.results| && Reds(run, judge, i) {
      var k := RedsIsRedSomewhere(run, judge, i);
    }
    if i :| 0 <= i < |run.results| && RedAlone(run, judge, i) {
      RedAloneReds(run, judge, i);
    }
  }

  lemma {:induction false} CountIsPositiveExactly(run: Run, judge: Judge, n: nat)
    requires n <= |run.results|
    ensures ExcusedCount(run, judge, n) > 0 <==> exists i :: 0 <= i < n && ForgivenAt(run, judge, i)
  {
    if n > 0 {
      CountIsPositiveExactly(run, judge, n - 1);
      ExcusesIsForgiven(run, judge, n - 1);
    }
  }

  function FailedBefore(run: Run, n: nat): set<nat>
    requires n <= |run.results|
  {
    set i: nat | i < n && run.results[i].status.Failed?
  }

  lemma OneMoreFailed(run: Run, n: nat)
    requires n < |run.results|
    ensures |FailedBefore(run, n + 1)| == |FailedBefore(run, n)| + if run.results[n].status.Failed? then 1 else 0
  {
    var before := FailedBefore(run, n);
    if run.results[n].status.Failed? {
      assert FailedBefore(run, n + 1) == before + {n};
    } else {
      assert FailedBefore(run, n + 1) == before;
    }
  }

  lemma {:induction false} CountOfAll(run: Run, judge: Judge, n: nat)
    requires n <= |run.results|
    requires forall i :: 0 <= i < n && run.results[i].status.Failed? ==> ForgivenAt(run, judge, i)
    ensures ExcusedCount(run, judge, n) == |FailedBefore(run, n)|
  {
    if n > 0 {
      CountOfAll(run, judge, n - 1);
      ExcusesIsForgiven(run, judge, n - 1);
      OneMoreFailed(run, n - 1);
    }
  }

  /** Failures are counted as excused when any is forgiven, and all of them when all are. */
  lemma CountExactly(run: Run, judge: Judge)
    ensures ExcusedCount(run, judge, |run.results|) > 0 <==>
            exists i :: 0 <= i < |run.results| && ForgivenAt(run, judge, i)
    ensures (forall i :: 0 <= i < |run.results| && run.results[i].status.Failed? ==> ForgivenAt(run, judge, i)) ==>
              ExcusedCount(run, judge, |run.results|) == |FailedAt(run)|
  {
    CountIsPositiveExactly(run, judge, |run.results|);
    if forall i :: 0 <= i < |run.results| && run.results[i].status.Failed? ==> ForgivenAt(run, judge, i) {
      CountOfAll(run, judge, |run.results|);
      assert FailedAt(run) == FailedBefore(run, |run.results|);
    }
  }

  /** What the registry is for: a run it excuses whole. With a sound registry and every test
      finished, a run whose every failure is forgiven is not red, and counts each as excused. */
  lemma AllForgiven(run: Run, judge: Judge)
    requires run.registryOk && forall t :: t in run.entries ==> !run.entries[t].expired
    requires forall i :: 0 <= i < |run.results| ==>
               !run.results[i].status.NoResult? && (run.results[i].status.Failed? ==> ForgivenAt(run, judge, i))
    ensures !Red(run, judge) && ExcusedCount(run, judge, |run.results|) == |FailedAt(run)|
  {
    RedExactly(run, judge);
    CountExactly(run, judge);
  }
}
