/** The binds a container's plan really holds: what the re-exposing steps of an accepted spec show
    inside the container's root, and in what order. */
module ReExposure {
  import opened Paths
  import opened MountPlan
  import opened GuestPrivate
  import opened GuestPrivateSafety
  import PathRebase

  /** Where entry k's bind stands among the steps. */
  function Start(rs: seq<Rebase>, k: nat): nat
    requires k <= |rs|
  {
    if k == 0 then 0 else Start(rs, k - 1) + if rs[k - 1].readOnly then 2 else 1
  }

  lemma {:induction false} StartLooksBack(rs: seq<Rebase>, n: nat, k: nat)
    requires k <= n <= |rs|
    ensures Start(rs[..n], k) == Start(rs, k)
  {
    if k > 0 {
      StartLooksBack(rs, n, k - 1);
    }
  }

  lemma {:induction false} StartGrows(rs: seq<Rebase>, j: nat, k: nat)
    requires j < k <= |rs|
    ensures Start(rs, j) < Start(rs, k)
  {
    if j < k - 1 {
      StartGrows(rs, j, k - 1);
    }
  }

  predicate IsRemountAt(steps: seq<MountStep>, p: nat)
    requires p < |steps|
  {
    p + 1 < |steps| && Remounts(steps[p + 1], steps[p], true)
  }

  /** Entry k's bind is at its place, its remount directly behind it exactly when it has one. */
  predicate At(root: string, rs: seq<Rebase>, steps: seq<MountStep>, k: nat)
    requires k < |rs|
  {
    Start(rs, k) < Start(rs, k + 1) <= |steps| && steps[Start(rs, k)] == BindOf(root, rs[k]) &&
    (rs[k].readOnly ==> IsRemountAt(steps, Start(rs, k)))
  }

  lemma AtStays(root: string, rs: seq<Rebase>, steps: seq<MountStep>, steps': seq<MountStep>, k: nat)
    requires k < |rs| - 1 && steps <= steps' && At(root, rs[..|rs| - 1], steps, k)
    ensures At(root, rs, steps', k)
  {
    StartLooksBack(rs, |rs| - 1, k);
    StartLooksBack(rs, |rs| - 1, k + 1);
  }

  lemma {:induction false} StepsAt(root: string, rs: seq<Rebase>)
    ensures |ReExposeAll(root, rs)| == Start(rs, |rs|)
    ensures forall k :: 0 <= k < |rs| ==> At(root, rs, ReExposeAll(root, rs), k)
  {
    if rs != [] {
      var n := |rs| - 1;
      StepsAt(root, rs[..n]);
      StartLooksBack(rs, n, n);
      forall k | 0 <= k < |rs|
        ensures At(root, rs, ReExposeAll(root, rs), k)
      {
        if k < n {
          assert At(root, rs[..n], ReExposeAll(root, rs[..n]), k);
          AtStays(root, rs, ReExposeAll(root, rs[..n]), ReExposeAll(root, rs), k);
        }
      }
    }
  }

  /** Every step belongs to an entry. */
  lemma {:induction false} EntryOf(rs: seq<Rebase>, n: nat, p: nat) returns (k: nat)
    requires n <= |rs| && p < Start(rs, n)
    ensures k < n && Start(rs, k) <= p < Start(rs, k + 1)
  {
    if Start(rs, n - 1) <= p {
      return n - 1;
    }
    k := EntryOf(rs, n - 1, p);
  }

  /** A recursive bind, and nothing else. */
  predicate IsBind(steps: seq<MountStep>, p: nat) {
    p < |steps| &&
    var f := steps[p].flags;
    f.bind && f.rec && !f.remount && !f.readOnly && !f.detach && !f.hardened
  }

  /** A step is a recursive bind of a pod target onto its place inside the root, or the read-only
      remount of the bind directly in front of it. */
  predicate BindOrRemount(root: string, steps: seq<MountStep>, p: nat)
    requires p < |steps|
  {
    if IsBind(steps, p) then steps[p].target == Joined(root, steps[p].source) && steps[p].fsType.NoType?
    else p > 0 && IsBind(steps, p - 1) && IsRemountAt(steps, p - 1)
  }

  lemma StepsAreBinds(root: string, rs: seq<Rebase>, p: nat)
    requires p < |ReExposeAll(root, rs)|
    ensures BindOrRemount(root, ReExposeAll(root, rs), p)
  {
    StepsAt(root, rs);
    var k := EntryOf(rs, |rs|, p);
    assert At(root, rs, ReExposeAll(root, rs), k);
  }

  lemma BindIsOf(root: string, rs: seq<Rebase>, p: nat) returns (k: nat)
    requires IsBind(ReExposeAll(root, rs), p)
    ensures k < |rs| && p == Start(rs, k) && ReExposeAll(root, rs)[p] == BindOf(root, rs[k])
    ensures IsRemountAt(ReExposeAll(root, rs), p) <==> rs[k].readOnly
  {
    StepsAt(root, rs);
    k := EntryOf(rs, |rs|, p);
    assert At(root, rs, ReExposeAll(root, rs), k);
    if k + 1 < |rs| {
      assert At(root, rs, ReExposeAll(root, rs), k + 1);
    }
  }

  /** The bind of a target the spec has and keeps visible: neither it nor anything above it is
      private, and its remount follows exactly when the spec has the target read-only. */
  ghost predicate ShowsVisible(mounts: seq<GuestMount>, steps: seq<MountStep>, p: nat)
    requires p < |steps|
  {
    (exists i :: 0 <= i < |mounts| && mounts[i].Target() == steps[p].source) &&
    (forall t :: PrivateAt(mounts, t) ==> !Under(t, steps[p].source)) &&
    (IsRemountAt(steps, p) <==> ReadOnlyAt(mounts, steps[p].source))
  }

  /** Two binds: of different targets, onto different places, and one onto a place at or above the
      other's comes first. */
  predicate InOrder(steps: seq<MountStep>, p: nat, q: nat)
    requires p < |steps| && q < |steps|
  {
    steps[p].source != steps[q].source && steps[p].target != steps[q].target &&
    (Under(steps[q].source, steps[p].source) ==> p < q) && (Under(steps[q].target, steps[p].target) ==> p < q)
  }

  /** What a container is shown of the pod's mounts. */
  ghost predicate Shows(root: string, mounts: seq<GuestMount>, steps: seq<MountStep>) {
    (forall p :: 0 <= p < |steps| ==> BindOrRemount(root, steps, p)) &&
    (forall p: nat :: IsBind(steps, p) ==> ShowsVisible(mounts, steps, p)) &&
    (forall p: nat, q: nat :: IsBind(steps, p) && IsBind(steps, q) && p != q ==> InOrder(steps, p, q)) &&
    forall i :: 0 <= i < |mounts| && !PrivateAt(mounts, mounts[i].Target()) ==>
                exists p: nat :: IsBind(steps, p) && steps[p].source == mounts[i].Target()
  }

  /** A clean root and a clean target join to the one behind the other. */
  lemma JoinedClean(root: string, t: string)
    requires IsClean(root) && IsClean(t)
    ensures Joined(root, t) == if t == "/" then root else if root == "/" then t else root + t
  {
    var p := root + ("/" + t);
    assert p == root + "/" + t;
    ComponentsConcat(root, "/" + t);
    ComponentsConcat("/", t);
    assert Components("/") == [] by {
      assert "/"[1..] == "";
    }
    assert [] + Components(t) == Components(t);
    CleanParts(root);
    CleanParts(t);
    WalkProper([], Components(root) + Components(t));
    assert [] + (Components(root) + Components(t)) == Components(root) + Components(t);
    PathRebase.RenderConcat(Components(root), Components(t));
  }

  lemma CleanParts(p: string)
    requires IsClean(p)
    ensures (p == "/" <==> Components(p) == []) && (forall c :: c in Components(p) ==> Proper(c))
    ensures p != "/" ==> Render(Components(p)) == p
  {
    if |p| > 1 {
      CleanComponents(p);
    } else {
      assert p == "/" && p[1..] == "";
    }
  }

  lemma CleanEndsOpen(p: string)
    requires IsClean(p) && p != "/"
    ensures |p| > 1 && p[|p| - 1] != '/'
  {
    assert |p| == 1 ==> p == "/";
    assert DotOrEmptyAt(p, |p|);
  }

  /** Inside the root, only a place at or below a target's lies at or below that target's place. */
  lemma JoinedUnder(root: string, a: string, b: string)
    requires IsClean(root) && IsClean(a) && IsClean(b) && Under(Joined(root, a), Joined(root, b))
    ensures Under(a, b)
  {
    JoinedClean(root, a);
    JoinedClean(root, b);
    if b != "/" {
      CleanEndsOpen(b);
      if root != "/" {
        BehindRoot(root, if a == "/" then "" else a, b);
      }
    }
  }

  lemma BehindRoot(root: string, a: string, b: string)
    requires |b| > 1 && b[|b| - 1] != '/' && Under(root + a, root + b)
    ensures Under(a, b) && |a| >= |b|
  {
    var x, y := root + a, root + b;
    assert y[|y| - 1] == b[|b| - 1];
    if x == y {
      assert x[|root|..] == a && y[|root|..] == b;
    } else {
      assert x[|y|] == a[|b|];
      forall k | 0 <= k < |b|
        ensures a[k] == b[k]
      {
        assert x[|root| + k] == a[k] && y[|root| + k] == b[k];
      }
    }
  }

  lemma ShownVisible(root: string, mounts: seq<GuestMount>, visible: seq<MountStep>, p: nat)
    requires Plannable(mounts) && Isolated(mounts) && VisibleSteps(mounts, visible)
    requires IsBind(ReExposeAll(root, Ordered(visible)), p)
    ensures ShowsVisible(mounts, ReExposeAll(root, Ordered(visible)), p)
  {
    var rs := Ordered(visible);
    var k := BindIsOf(root, rs, p);
    assert rs[k] in rs;
    ReExposureIsIsolated(mounts, visible);
    OrderedMerges(visible);
    var s :| s in visible && s.target == rs[k].target;
    assert Targets(Flatten(Plan(mounts)), s.target);
    PlanTargets(mounts, s.target);
  }

  lemma ShownInOrder(root: string, visible: seq<MountStep>, p: nat, q: nat)
    requires IsClean(root) && (forall r :: r in Ordered(visible) ==> IsClean(r.target)) && p != q
    requires IsBind(ReExposeAll(root, Ordered(visible)), p) && IsBind(ReExposeAll(root, Ordered(visible)), q)
    ensures InOrder(ReExposeAll(root, Ordered(visible)), p, q)
  {
    var rs := Ordered(visible);
    var j := BindIsOf(root, rs, p);
    var k := BindIsOf(root, rs, q);
    assert rs[j] in rs && rs[k] in rs;
    OrderedMerges(visible);
    var a, b := rs[j].target, rs[k].target;
    assert a != b;
    if Under(Joined(root, b), Joined(root, a)) {
      JoinedUnder(root, b, a);
    }
    if Under(b, a) {
      AncestorsFirst(visible, j, k);
      StartGrows(rs, j, k);
    }
    if Joined(root, a) == Joined(root, b) {
      JoinedUnder(root, a, b);
      AncestorsFirst(visible, k, j);
      AncestorsFirst(visible, j, k);
    }
  }

  lemma ShownToo(root: string, mounts: seq<GuestMount>, visible: seq<MountStep>, i: nat) returns (p: nat)
    requires Plannable(mounts) && Isolated(mounts) && VisibleSteps(mounts, visible)
    requires i < |mounts| && !PrivateAt(mounts, mounts[i].Target())
    ensures
      var steps := ReExposeAll(root, Ordered(visible));
      IsBind(steps, p) && steps[p].source == mounts[i].Target()
  {
    var rs := Ordered(visible);
    ReExposureIsIsolated(mounts, visible);
    var r :| r in rs && r.target == mounts[i].Target();
    var k :| 0 <= k < |rs| && rs[k] == r;
    StepsAt(root, rs);
    assert At(root, rs, ReExposeAll(root, rs), k);
    p := Start(rs, k);
  }

  lemma TargetsAreClean(mounts: seq<GuestMount>, visible: seq<MountStep>, r: Rebase)
    requires Plannable(mounts) && Accepted(mounts, |mounts|) && VisibleSteps(mounts, visible) && r in Ordered(visible)
    ensures IsClean(r.target)
  {
    OrderedMerges(visible);
    var s :| s in visible && s.target == r.target;
    assert Targets(Flatten(Plan(mounts)), s.target);
    PlanTargets(mounts, s.target);
    var i :| 0 <= i < |mounts| && mounts[i].Target() == s.target;
    assert Passes(mounts, i);
  }

  /** Of an accepted spec, the emitted steps show exactly the visible mounts, none of them or of
      what lies below them private, ancestors first. */
  lemma AcceptedSpecShows(root: string, mounts: seq<GuestMount>, steps: seq<MountStep>)
    requires IsClean(root) && Plannable(mounts) && Accepted(mounts, |mounts|) && Isolated(mounts)
    requires steps == ReExposeAll(root, Ordered(Visible(mounts, Flatten(Plan(mounts)))))
    ensures Shows(root, mounts, steps)
  {
    var visible := Visible(mounts, Flatten(Plan(mounts)));
    VisibleStepsOfPlan(mounts);
    forall p | 0 <= p < |steps|
      ensures BindOrRemount(root, steps, p)
    {
      StepsAreBinds(root, Ordered(visible), p);
    }
    forall p: nat | IsBind(steps, p)
      ensures ShowsVisible(mounts, steps, p)
    {
      ShownVisible(root, mounts, visible, p);
    }
    forall r | r in Ordered(visible)
      ensures IsClean(r.target)
    {
      TargetsAreClean(mounts, visible, r);
    }
    forall p: nat, q: nat | IsBind(steps, p) && IsBind(steps, q) && p != q
      ensures InOrder(steps, p, q)
    {
      ShownInOrder(root, visible, p, q);
    }
    forall i | 0 <= i < |mounts| && !PrivateAt(mounts, mounts[i].Target())
      ensures exists p: nat :: IsBind(steps, p) && steps[p].source == mounts[i].Target()
    {
      var p := ShownToo(root, mounts, visible, i);
    }
  }

  /** What a spec's mounts come to: the pod's own steps, the detaches, and one container's binds. */
  datatype Planning =
    | Mounted(pod: seq<MountStep>, detach: seq<MountStep>, binds: seq<MountStep>)
    | BadMount(error: PlanError)
    | NotIsolated(why: IsolationError)

  /** The mounts of a boot plan and of one of its containers, whose root, being joined by
      path.Join, is clean. */
  method PlanMounts(root: string, mounts: seq<GuestMount>) returns (r: Planning)
    requires IsClean(root)
    ensures r.Mounted? <==> Accepted(mounts, |mounts|) && Isolated(mounts)
    ensures r.Mounted? ==>
              Plannable(mounts) && r.pod == Flatten(Plan(mounts)) && r.detach == DetachAll(FirstNamed(mounts)) &&
              Shows(root, mounts, r.binds)
    ensures r.NotIsolated? ==> Accepted(mounts, |mounts|) && !Isolated(mounts)
    ensures r.BadMount? ==> RefusedFor(mounts, r.error) && Accepted(mounts, r.error.at)
  {
    var planned := PodMounts(mounts);
    if planned.Refused? {
      return BadMount(planned.error);
    }
    var verdict := CheckIsolated(mounts);
    if verdict.Refuse? {
      return NotIsolated(verdict.error);
    }
    var detach := DetachSteps(mounts);
    var visible := ContainerPodMounts(planned.steps, mounts);
    var binds := ContainerVisibleMounts(root, visible);
    AcceptedSpecShows(root, mounts, binds);
    return Mounted(planned.steps, detach, binds);
  }
}
