/** Guest-private mounts: the isolation check, the detach plan, and the recursive binds that
    re-expose every other pod mount inside a container's root. */
module GuestPrivate {
  import opened Paths
  import opened MountPlan

  predicate PrivateAt(mounts: seq<GuestMount>, t: string) {
    exists i :: 0 <= i < |mounts| && mounts[i].Private() && mounts[i].Target() == t
  }

  predicate ShownAt(mounts: seq<GuestMount>, t: string) {
    exists i :: 0 <= i < |mounts| && !mounts[i].Private() && mounts[i].Target() == t
  }

  predicate ReadOnlyAt(mounts: seq<GuestMount>, t: string) {
    exists i :: 0 <= i < |mounts| && mounts[i].ReadOnly() && mounts[i].Target() == t
  }

  /** A visible mount at or above the private target t, or a private one strictly above it. */
  predicate Violates(m: GuestMount, t: string) {
    Under(t, m.Target()) && !(m.Private() && t == m.Target())
  }

  ghost predicate Isolated(mounts: seq<GuestMount>) {
    forall i, t :: 0 <= i < |mounts| && PrivateAt(mounts, t) ==> !Violates(mounts[i], t)
  }

  datatype IsolationError = CoversPrivate(target: string, private: string) | NestedPrivate(inner: string, outer: string)
  datatype Verdict = Accept | Refuse(error: IsolationError)

  /** guestPrivateTargets. */
  method PrivateTargets(mounts: seq<GuestMount>) returns (out: set<string>)
    ensures forall t :: t in out <==> PrivateAt(mounts, t)
  {
    out := {};
    for i := 0 to |mounts|
      invariant forall t :: t in out <==> exists k :: 0 <= k < i && mounts[k].Private() && mounts[k].Target() == t
    {
      if mounts[i].Private() {
        out := out + {mounts[i].Target()};
      }
    }
  }

  /** checkGuestPrivateIsolated. The private targets are visited in any order; the verdict is
      the same for all of them. */
  method CheckIsolated(mounts: seq<GuestMount>) returns (v: Verdict)
    ensures v.Accept? <==> Isolated(mounts)
    ensures v.Accept? <==>
              forall i, t :: 0 <= i < |mounts| && PrivateAt(mounts, t) && Under(t, mounts[i].Target()) ==>
                             mounts[i].Private() && mounts[i].Target() == t
    ensures v.Refuse? ==>
              match v.error
              case CoversPrivate(m, t) => PrivateAt(mounts, t) && Under(t, m) && ShownAt(mounts, m)
              case NestedPrivate(t, m) => PrivateAt(mounts, t) && PrivateAt(mounts, m) && t != m && Under(t, m)
  {
    var private := PrivateTargets(mounts);
    for i := 0 to |mounts|
      invariant forall k, t :: 0 <= k < i && t in private ==> !Violates(mounts[k], t)
    {
      var todo := private;
      while todo != {}
        invariant todo <= private
        invariant forall t :: t in private && t !in todo ==> !Violates(mounts[i], t)
      {
        var t :| t in todo;
        if Under(t, mounts[i].Target()) {
          if !mounts[i].Private() {
            assert Violates(mounts[i], t) && ShownAt(mounts, mounts[i].Target());
            return Refuse(CoversPrivate(mounts[i].Target(), t));
          }
          if t != mounts[i].Target() {
            assert Violates(mounts[i], t);
            return Refuse(NestedPrivate(t, mounts[i].Target()));
          }
        }
        todo := todo - {t};
      }
    }
    return Accept;
  }

  /** The private targets in the order the spec first names them. */
  function FirstNamed(mounts: seq<GuestMount>): seq<string> {
    if mounts == [] then []
    else
      var before, m := FirstNamed(mounts[..|mounts| - 1]), mounts[|mounts| - 1];
      if m.Private() && m.Target() !in before then before + [m.Target()] else before
  }

  lemma {:induction false} FirstNamedMembers(mounts: seq<GuestMount>, t: string)
    ensures t in FirstNamed(mounts) <==> PrivateAt(mounts, t)
  {
    if mounts != [] {
      var before, n := mounts[..|mounts| - 1], |mounts| - 1;
      FirstNamedMembers(before, t);
      if i :| 0 <= i < |mounts| && mounts[i].Private() && mounts[i].Target() == t {
        assert i < n ==> before[i] == mounts[i];
      }
      if PrivateAt(before, t) {
        var i :| 0 <= i < n && before[i].Private() && before[i].Target() == t;
        assert mounts[i] == before[i];
      }
    }
  }

  lemma {:induction false} FirstNamedDistinct(mounts: seq<GuestMount>)
    ensures forall j, k :: 0 <= j < k < |FirstNamed(mounts)| ==> FirstNamed(mounts)[j] != FirstNamed(mounts)[k]
  {
    if mounts != [] {
      FirstNamedDistinct(mounts[..|mounts| - 1]);
    }
  }

  /** Naming order: what an initial part of the spec names stays in front. */
  lemma {:induction false} FirstNamedPrefix(mounts: seq<GuestMount>, n: nat)
    requires n <= |mounts|
    ensures FirstNamed(mounts[..n]) <= FirstNamed(mounts)
    decreases |mounts| - n
  {
    if n < |mounts| {
      FirstNamedPrefix(mounts, n + 1);
      assert mounts[..n + 1][..n] == mounts[..n];
    } else {
      assert mounts[..n] == mounts;
    }
  }

  /** First-named order: of two private targets, the one listed earlier is named by some initial
      part of the spec that does not name the other. */
  lemma {:induction false} FirstNamedInOrder(mounts: seq<GuestMount>, p: nat, q: nat) returns (n: nat)
    requires p < q < |FirstNamed(mounts)|
    ensures n <= |mounts| && PrivateAt(mounts[..n], FirstNamed(mounts)[p])
    ensures !PrivateAt(mounts[..n], FirstNamed(mounts)[q])
  {
    var last := |mounts| - 1;
    FirstNamedPrefix(mounts, last);
    var before := FirstNamed(mounts[..last]);
    if q < |before| {
      n := FirstNamedInOrder(mounts[..last], p, q);
      assert mounts[..last][..n] == mounts[..n];
    } else {
      n := last;
      FirstNamedMembers(mounts[..last], FirstNamed(mounts)[p]);
      FirstNamedMembers(mounts[..last], FirstNamed(mounts)[q]);
    }
  }

  function DetachAll(targets: seq<string>): seq<MountStep> {
    seq(|targets|, i requires 0 <= i < |targets| => MountStep("", targets[i], NoType, DETACH))
  }

  /** The step detaches what is mounted at t, and asks for nothing else. */
  predicate Detaches(s: MountStep, t: string) {
    s.target == t && s.source == "" && s.fsType.NoType? && s.flags.detach &&
    !s.flags.bind && !s.flags.rec && !s.flags.remount && !s.flags.readOnly && !s.flags.hardened
  }

  /** DetachSteps: one detach per private target, in the order the spec first names them. */
  method DetachSteps(mounts: seq<GuestMount>) returns (out: seq<MountStep>)
    ensures out == DetachAll(FirstNamed(mounts))
    ensures |out| == |FirstNamed(mounts)|
    ensures forall i :: 0 <= i < |out| ==> Detaches(out[i], FirstNamed(mounts)[i])
  {
    out := [];
    var seen: set<string> := {};
    for i := 0 to |mounts|
      invariant out == DetachAll(FirstNamed(mounts[..i]))
      invariant forall t :: t in seen <==> t in FirstNamed(mounts[..i])
    {
      assert mounts[..i + 1][..i] == mounts[..i];
      var m := mounts[i];
      if !m.Private() || m.Target() in seen {
        continue;
      }
      seen := seen + {m.Target()};
      out := out + [MountStep("", m.Target(), NoType, DETACH)];
    }
    assert mounts[..|mounts|] == mounts;
  }

  /** No detach takes another's target with it, so their order cannot matter. */
  lemma DetachesDoNotNest(mounts: seq<GuestMount>, a: string, b: string)
    requires Isolated(mounts) && PrivateAt(mounts, a) && PrivateAt(mounts, b) && a != b
    ensures !Under(a, b) && !Under(b, a)
  {
    var i :| 0 <= i < |mounts| && mounts[i].Private() && mounts[i].Target() == a;
    var j :| 0 <= j < |mounts| && mounts[j].Private() && mounts[j].Target() == b;
    assert !Violates(mounts[i], b) && !Violates(mounts[j], a);
  }

  /** The steps whose target no private entry names, in order. */
  function Visible(mounts: seq<GuestMount>, pod: seq<MountStep>): seq<MountStep> {
    if pod == [] then []
    else
      var s := pod[|pod| - 1];
      Visible(mounts, pod[..|pod| - 1]) + if PrivateAt(mounts, s.target) then [] else [s]
  }

  lemma {:induction false} VisibleHas(mounts: seq<GuestMount>, pod: seq<MountStep>, s: MountStep)
    ensures s in Visible(mounts, pod) <==> s in pod && !PrivateAt(mounts, s.target)
  {
    if pod != [] {
      VisibleHas(mounts, pod[..|pod| - 1], s);
      assert pod == pod[..|pod| - 1] + [pod[|pod| - 1]];
    }
  }

  /** out is the pod's visible steps, as they come: ks are their places. */
  ghost predicate PicksVisible(mounts: seq<GuestMount>, pod: seq<MountStep>, out: seq<MountStep>, ks: seq<nat>) {
    |out| == |ks| && (forall i, j :: 0 <= i < j < |ks| ==> ks[i] < ks[j]) &&
    (forall j :: 0 <= j < |ks| ==> ks[j] < |pod| && out[j] == pod[ks[j]]) &&
    forall k: nat :: k in ks <==> k < |pod| && !PrivateAt(mounts, pod[k].target)
  }

  lemma PicksOneMore(mounts: seq<GuestMount>, pod: seq<MountStep>, s: MountStep, out: seq<MountStep>, ks: seq<nat>)
    requires PicksVisible(mounts, pod, out, ks)
    ensures PrivateAt(mounts, s.target) ==> PicksVisible(mounts, pod + [s], out, ks)
    ensures !PrivateAt(mounts, s.target) ==> PicksVisible(mounts, pod + [s], out + [s], ks + [|pod|])
  {
    forall j | 0 <= j < |ks|
      ensures ks[j] < |pod|
    {
      assert ks[j] in ks;
    }
  }

  /** Exactly the steps at targets that are not private, in the pod's own order. */
  lemma {:induction false} VisibleInOrder(mounts: seq<GuestMount>, pod: seq<MountStep>) returns (ks: seq<nat>)
    ensures PicksVisible(mounts, pod, Visible(mounts, pod), ks)
  {
    if pod == [] {
      return [];
    }
    var n := |pod| - 1;
    ks := VisibleInOrder(mounts, pod[..n]);
    assert pod == pod[..n] + [pod[n]];
    PicksOneMore(mounts, pod[..n], pod[n], Visible(mounts, pod[..n]), ks);
    if !PrivateAt(mounts, pod[n].target) {
      ks := ks + [n];
    }
  }

  /** ContainerPodMounts. */
  method ContainerPodMounts(pod: seq<MountStep>, mounts: seq<GuestMount>) returns (out: seq<MountStep>)
    ensures out == Visible(mounts, pod)
  {
    var private := PrivateTargets(mounts);
    out := [];
    for i := 0 to |pod|
      invariant out == Visible(mounts, pod[..i])
    {
      assert pod[..i + 1][..i] == pod[..i];
      if pod[i].target !in private {
        out := out + [pod[i]];
      }
    }
    assert pod[..|pod|] == pod;
  }

  /** One pod target to re-expose, and whether any of its steps is read-only. */
  datatype Rebase = Rebase(target: string, readOnly: bool)

  ghost predicate Targets(steps: seq<MountStep>, t: string) {
    exists s :: s in steps && s.target == t
  }

  ghost predicate ReadOnlyStep(steps: seq<MountStep>, t: string) {
    exists s :: s in steps && s.target == t && s.flags.readOnly
  }

  predicate Distinct(rs: seq<Rebase>) {
    forall j, k :: 0 <= j < k < |rs| ==> rs[j].target != rs[k].target
  }

  /** rs names exactly the targets of steps, once each, merging their read-only flags. */
  ghost predicate Merges(rs: seq<Rebase>, steps: seq<MountStep>) {
    Distinct(rs) &&
    (forall r :: r in rs ==> Targets(steps, r.target) && r.readOnly == ReadOnlyStep(steps, r.target)) &&
    (forall s :: s in steps ==> exists r :: r in rs && r.target == s.target)
  }

  lemma StepAppended(steps: seq<MountStep>, s: MountStep, t: string)
    ensures Targets(steps + [s], t) <==> Targets(steps, t) || t == s.target
    ensures ReadOnlyStep(steps + [s], t) <==> ReadOnlyStep(steps, t) || (t == s.target && s.flags.readOnly)
  {
    assert s in steps + [s] && forall x :: x in steps ==> x in steps + [s];
  }

  /** The first entry for target t; |rs| when there is none. */
  function Find(rs: seq<Rebase>, t: string): (k: nat)
    ensures k <= |rs| && (k < |rs| ==> rs[k].target == t)
    ensures forall j :: 0 <= j < k ==> rs[j].target != t
  {
    if rs == [] || rs[0].target == t then 0 else 1 + Find(rs[1..], t)
  }

  function MergeInto(rs: seq<Rebase>, s: MountStep): seq<Rebase> {
    var k := Find(rs, s.target);
    if k < |rs| then rs[k := Rebase(s.target, rs[k].readOnly || s.flags.readOnly)]
    else rs + [Rebase(s.target, s.flags.readOnly)]
  }

  function MergeAll(steps: seq<MountStep>): seq<Rebase> {
    if steps == [] then [] else MergeInto(MergeAll(steps[..|steps| - 1]), steps[|steps| - 1])
  }

  lemma MergeIntoEntries(rs: seq<Rebase>, steps: seq<MountStep>, s: MountStep, r: Rebase)
    requires Merges(rs, steps) && r in MergeInto(rs, s)
    ensures Targets(steps + [s], r.target) && r.readOnly == ReadOnlyStep(steps + [s], r.target)
  {
    var rs' := MergeInto(rs, s);
    StepAppended(steps, s, r.target);
    var j :| 0 <= j < |rs'| && rs'[j] == r;
    if j < |rs| {
      assert rs[j] in rs;
    }
  }

  lemma MergeIntoCovers(rs: seq<Rebase>, steps: seq<MountStep>, s: MountStep, x: MountStep)
    requires Merges(rs, steps) && x in steps + [s]
    ensures exists r :: r in MergeInto(rs, s) && r.target == x.target
  {
    var rs' := MergeInto(rs, s);
    var j := Find(rs, x.target);
    if x in steps {
      var r :| r in rs && r.target == x.target;
      assert j < |rs|;
    }
    assert j < |rs'| && rs'[j].target == x.target;
    assert rs'[j] in rs';
  }

  lemma MergeIntoDistinct(rs: seq<Rebase>, s: MountStep)
    requires Distinct(rs)
    ensures Distinct(MergeInto(rs, s))
  {
  }

  lemma MergeIntoMerges(rs: seq<Rebase>, steps: seq<MountStep>, s: MountStep)
    requires Merges(rs, steps)
    ensures Merges(MergeInto(rs, s), steps + [s])
  {
    MergeIntoDistinct(rs, s);
    forall r | r in MergeInto(rs, s)
      ensures Targets(steps + [s], r.target) && r.readOnly == ReadOnlyStep(steps + [s], r.target)
    {
      MergeIntoEntries(rs, steps, s, r);
    }
    forall x | x in steps + [s]
      ensures exists r :: r in MergeInto(rs, s) && r.target == x.target
    {
      MergeIntoCovers(rs, steps, s, x);
    }
  }

  lemma {:induction false} MergeAllMerges(steps: seq<MountStep>)
    ensures Merges(MergeAll(steps), steps)
  {
    if steps != [] {
      var before, s := steps[..|steps| - 1], steps[|steps| - 1];
      MergeAllMerges(before);
      assert steps == before + [s];
      MergeIntoMerges(MergeAll(before), before, s);
    }
  }

  /** The first step at target t comes before every step at target u. */
  predicate NamedBefore(steps: seq<MountStep>, t: string, u: string) {
    exists n :: 0 <= n < |steps| && NamedAt(steps, t, u, n)
  }

  predicate NamedAt(steps: seq<MountStep>, t: string, u: string, n: nat)
    requires n < |steps|
  {
    steps[n].target == t && forall k :: 0 <= k <= n ==> steps[k].target != u
  }

  lemma MergeIntoTargets(rs: seq<Rebase>, s: MountStep, j: nat)
    requires j < |MergeInto(rs, s)|
    ensures j < |rs| ==> MergeInto(rs, s)[j].target == rs[j].target
    ensures j >= |rs| ==> j == |rs| && MergeInto(rs, s)[j].target == s.target && Find(rs, s.target) == |rs|
  {
  }

  lemma NamedStill(steps: seq<MountStep>, s: MountStep, t: string, u: string)
    requires NamedBefore(steps, t, u)
    ensures NamedBefore(steps + [s], t, u)
  {
    var n :| 0 <= n < |steps| && NamedAt(steps, t, u, n);
    assert NamedAt(steps + [s], t, u, n);
  }

  lemma NewNamedLast(rs: seq<Rebase>, steps: seq<MountStep>, s: MountStep, t: string)
    requires Merges(rs, steps) && Targets(steps, t) && Find(rs, s.target) == |rs|
    ensures NamedBefore(steps + [s], t, s.target)
  {
    var x :| x in steps && x.target == t;
    var n :| 0 <= n < |steps| && steps[n] == x;
    forall k | 0 <= k <= n
      ensures steps[k].target != s.target
    {
      assert steps[k] in steps;
    }
    assert NamedAt(steps + [s], t, s.target, n);
  }

  /** Merging keeps the targets in the order the steps first name them. */
  lemma {:induction false} MergedInOrder(steps: seq<MountStep>, i: nat, j: nat)
    requires i < j < |MergeAll(steps)|
    ensures NamedBefore(steps, MergeAll(steps)[i].target, MergeAll(steps)[j].target)
  {
    var n := |steps| - 1;
    var before, rs := steps[..n], MergeAll(steps[..n]);
    assert steps == before + [steps[n]];
    MergeIntoTargets(rs, steps[n], i);
    MergeIntoTargets(rs, steps[n], j);
    if j < |rs| {
      MergedInOrder(before, i, j);
      NamedStill(before, steps[n], rs[i].target, rs[j].target);
    } else {
      MergeAllMerges(before);
      assert rs[i] in rs;
      NewNamedLast(rs, before, steps[n], rs[i].target);
    }
  }

  /** The map names each target's entry. */
  ghost predicate Indexes(at: map<string, nat>, rs: seq<Rebase>) {
    forall t :: (t in at <==> Find(rs, t) < |rs|) && (t in at ==> at[t] == Find(rs, t))
  }

  lemma IndexesMerged(at: map<string, nat>, rs: seq<Rebase>, s: MountStep)
    requires Indexes(at, rs)
    ensures Indexes(if s.target in at then at else at[s.target := |rs|], MergeInto(rs, s))
  {
    forall t
      ensures Find(MergeInto(rs, s), t) ==
              if t == s.target || Find(rs, t) < |rs| then Find(rs, t) else |MergeInto(rs, s)|
    {
      FindMerged(rs, s, t);
    }
  }

  /** The first half of containerVisibleMounts: merge the steps of each target. */
  method Merge(pod: seq<MountStep>) returns (ordered: seq<Rebase>)
    ensures ordered == MergeAll(pod)
  {
    ordered := [];
    var at: map<string, nat> := map[];
    for i := 0 to |pod|
      invariant ordered == MergeAll(pod[..i])
      invariant Indexes(at, ordered)
    {
      assert pod[..i + 1][..i] == pod[..i];
      var m := pod[i];
      IndexesMerged(at, ordered, m);
      if m.target in at {
        var k := at[m.target];
        ordered := ordered[k := Rebase(m.target, ordered[k].readOnly || m.flags.readOnly)];
      } else {
        at := at[m.target := |ordered|];
        ordered := ordered + [Rebase(m.target, m.flags.readOnly)];
      }
    }
    assert pod[..|pod|] == pod;
  }

  lemma FindMerged(rs: seq<Rebase>, s: MountStep, t: string)
    ensures
      var rs' := MergeInto(rs, s);
      Find(rs', t) == if t == s.target || Find(rs, t) < |rs| then Find(rs, t) else |rs'|
  {
    var rs', k := MergeInto(rs, s), Find(rs, t);
    var k' := Find(rs', t);
    assert forall j :: 0 <= j < |rs| ==> rs'[j].target == rs[j].target;
    if t == s.target {
      assert rs'[k].target == t;
    }
  }

  predicate ByLength(rs: seq<Rebase>) {
    forall j, k :: 0 <= j < k < |rs| ==> |rs[j].target| <= |rs[k].target|
  }

  /** Where r goes: after everything no longer than it, up to the first longer one. */
  function Place(rs: seq<Rebase>, r: Rebase): (n: nat)
    ensures n <= |rs|
    ensures forall k :: 0 <= k < n ==> |rs[k].target| <= |r.target|
    ensures n < |rs| ==> |r.target| < |rs[n].target|
  {
    if rs == [] || |r.target| < |rs[0].target| then 0 else 1 + Place(rs[1..], r)
  }

  function Insert(rs: seq<Rebase>, r: Rebase): seq<Rebase> {
    rs[..Place(rs, r)] + [r] + rs[Place(rs, r)..]
  }

  function SortedAll(rs: seq<Rebase>): seq<Rebase> {
    if rs == [] then [] else Insert(SortedAll(rs[..|rs| - 1]), rs[|rs| - 1])
  }

  lemma InsertAt(rs: seq<Rebase>, r: Rebase, k: nat)
    requires k <= |rs|
    ensures |Insert(rs, r)| == |rs| + 1
    ensures
      var n := Place(rs, r);
      Insert(rs, r)[k] == if k < n then rs[k] else if k == n then r else rs[k - 1]
  {
  }

  lemma InsertMembers(rs: seq<Rebase>, r: Rebase, x: Rebase)
    ensures x in Insert(rs, r) <==> x in rs || x == r
  {
    assert rs == rs[..Place(rs, r)] + rs[Place(rs, r)..];
  }

  lemma InsertSorts(rs: seq<Rebase>, r: Rebase)
    requires ByLength(rs)
    ensures ByLength(Insert(rs, r))
  {
    var out := Insert(rs, r);
    forall j, k | 0 <= j < k < |out|
      ensures |out[j].target| <= |out[k].target|
    {
      InsertAt(rs, r, j);
      InsertAt(rs, r, k);
    }
  }

  lemma InsertDistinct(rs: seq<Rebase>, r: Rebase)
    requires Distinct(rs) && forall x :: x in rs ==> x.target != r.target
    ensures Distinct(Insert(rs, r))
  {
    var out := Insert(rs, r);
    forall j, k | 0 <= j < k < |out|
      ensures out[j].target != out[k].target
    {
      InsertAt(rs, r, j);
      InsertAt(rs, r, k);
    }
  }

  lemma {:induction false} SortedAllDistinct(rs: seq<Rebase>)
    requires Distinct(rs)
    ensures Distinct(SortedAll(rs)) && forall x :: x in SortedAll(rs) <==> x in rs
  {
    if rs != [] {
      var before, r := rs[..|rs| - 1], rs[|rs| - 1];
      SortedAllDistinct(before);
      assert rs == before + [r];
      InsertDistinct(SortedAll(before), r);
      forall x
        ensures x in SortedAll(rs) <==> x in rs
      {
        InsertMembers(SortedAll(before), r, x);
      }
    }
  }

  /** The entries whose target has length n, in order. */
  function OfLength(rs: seq<Rebase>, n: nat): seq<Rebase> {
    if rs == [] then []
    else
      var before, r := OfLength(rs[..|rs| - 1], n), rs[|rs| - 1];
      if |r.target| == n then before + [r] else before
  }

  lemma {:induction false} OfLengthConcat(a: seq<Rebase>, b: seq<Rebase>, n: nat)
    ensures OfLength(a + b, n) == OfLength(a, n) + OfLength(b, n)
  {
    if b == [] {
      assert a + b == a;
    } else {
      var c := b[..|b| - 1];
      OfLengthConcat(a, c, n);
      assert (a + b)[..|a + b| - 1] == a + c;
    }
  }

  lemma {:induction false} NoneOfLength(rs: seq<Rebase>, n: nat)
    requires forall k :: 0 <= k < |rs| ==> |rs[k].target| != n
    ensures OfLength(rs, n) == []
  {
    if rs != [] {
      NoneOfLength(rs[..|rs| - 1], n);
    }
  }

  lemma OneOfLength(r: Rebase, n: nat)
    ensures OfLength([r], n) == if |r.target| == n then [r] else []
  {
    assert [r][..0] == [];
  }

  lemma Swap<T>(x: seq<T>, y: seq<T>, z: seq<T>)
    requires y == [] || z == []
    ensures x + y + z == x + z + y
  {
  }

  lemma OfLengthInserted(a: seq<Rebase>, b: seq<Rebase>, r: Rebase, n: nat)
    requires |r.target| == n ==> OfLength(b, n) == []
    ensures OfLength(a + [r] + b, n) == OfLength(a + b + [r], n)
  {
    OneOfLength(r, n);
    OfLengthConcat(a, [r], n);
    OfLengthConcat(a + [r], b, n);
    OfLengthConcat(a, b, n);
    OfLengthConcat(a + b, [r], n);
    Swap(OfLength(a, n), OfLength([r], n), OfLength(b, n));
  }

  /** Inserting r puts it behind every entry of its own length and moves none of another. */
  lemma InsertIsStable(rs: seq<Rebase>, r: Rebase, n: nat)
    requires ByLength(rs)
    ensures OfLength(Insert(rs, r), n) == OfLength(rs + [r], n)
  {
    var k := Place(rs, r);
    if |r.target| == n {
      NoneOfLength(rs[k..], n);
    }
    OfLengthInserted(rs[..k], rs[k..], r, n);
    assert rs[..k] + rs[k..] == rs;
  }

  /** The order of a stable sort: by length, and among equals as they came; nothing is lost. */
  lemma {:induction false} SortedAllSorts(rs: seq<Rebase>)
    ensures ByLength(SortedAll(rs)) && forall n: nat :: OfLength(SortedAll(rs), n) == OfLength(rs, n)
  {
    if rs != [] {
      var before, r := rs[..|rs| - 1], rs[|rs| - 1];
      SortedAllSorts(before);
      InsertSorts(SortedAll(before), r);
      assert rs == before + [r];
      forall n: nat
        ensures OfLength(SortedAll(rs), n) == OfLength(rs, n)
      {
        InsertIsStable(SortedAll(before), r, n);
        OfLengthConcat(SortedAll(before), [r], n);
        OfLengthConcat(before, [r], n);
      }
    }
  }

  /** sort.SliceStable by target length. */
  method SortByLength(rs: seq<Rebase>) returns (out: seq<Rebase>)
    ensures out == SortedAll(rs)
    ensures ByLength(out) && forall n: nat :: OfLength(out, n) == OfLength(rs, n)
  {
    SortedAllSorts(rs);
    out := [];
    for i := 0 to |rs|
      invariant out == SortedAll(rs[..i])
    {
      assert rs[..i + 1][..i] == rs[..i];
      out := Insert(out, rs[i]);
    }
    assert rs[..|rs|] == rs;
  }

  /** path.Join of a root and a pod target. */
  function Joined(root: string, t: string): string { Clean(root + "/" + t) }

  /** The recursive bind that shows one pod target inside the root. */
  function BindOf(root: string, r: Rebase): MountStep {
    MountStep(r.target, Joined(root, r.target), NoType, RBIND)
  }

  function ReExpose(root: string, r: Rebase): seq<MountStep> {
    if r.readOnly then ThenReadOnly(BindOf(root, r)) else [BindOf(root, r)]
  }

  function ReExposeAll(root: string, rs: seq<Rebase>): seq<MountStep> {
    if rs == [] then [] else ReExposeAll(root, rs[..|rs| - 1]) + ReExpose(root, rs[|rs| - 1])
  }

  lemma MergesReordered(a: seq<Rebase>, b: seq<Rebase>, steps: seq<MountStep>)
    requires Merges(a, steps) && Distinct(b) && forall r :: r in b <==> r in a
    ensures Merges(b, steps)
  {
    forall s | s in steps
      ensures exists r :: r in b && r.target == s.target
    {
      var r :| r in a && r.target == s.target;
      assert r in b;
    }
  }

  /** The targets of the visible steps, merged and shortest first. */
  function Ordered(pod: seq<MountStep>): seq<Rebase> {
    SortedAll(MergeAll(pod))
  }

  /** Every target of the steps once, read-only exactly when one of its steps is, shortest first. */
  lemma OrderedMerges(pod: seq<MountStep>)
    ensures Merges(Ordered(pod), pod) && ByLength(Ordered(pod))
  {
    MergeAllMerges(pod);
    SortedAllSorts(MergeAll(pod));
    SortedAllDistinct(MergeAll(pod));
    MergesReordered(MergeAll(pod), Ordered(pod), pod);
  }

  /** containerVisibleMounts: each ordered target as a recursive bind, followed at once by its
      read-only remount when it has one. */
  method ContainerVisibleMounts(root: string, pod: seq<MountStep>) returns (out: seq<MountStep>)
    ensures out == ReExposeAll(root, Ordered(pod))
  {
    var merged := Merge(pod);
    var ordered := SortByLength(merged);
    out := EmitBinds(root, ordered);
  }

  lemma ReExposeOneMore(root: string, rs: seq<Rebase>, i: nat)
    requires i < |rs|
    ensures ReExposeAll(root, rs[..i + 1]) == ReExposeAll(root, rs[..i]) + ReExpose(root, rs[i])
  {
    assert rs[..i + 1][..i] == rs[..i];
  }

  method EmitBinds(root: string, ordered: seq<Rebase>) returns (out: seq<MountStep>)
    ensures out == ReExposeAll(root, ordered)
  {
    out := [];
    for i := 0 to |ordered|
      invariant out == ReExposeAll(root, ordered[..i])
    {
      ReExposeOneMore(root, ordered, i);
      out := out + ReExpose(root, ordered[i]);
    }
    assert ordered[..|ordered|] == ordered;
  }
}
