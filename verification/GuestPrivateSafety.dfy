/** What the isolation check, the planner and the re-exposure promise together. */
module GuestPrivateSafety {
  import opened MountPlan
  import opened MountKernel
  import opened MountShape
  import opened MountFaithful
  import opened GuestPrivate

  /** The steps of one entry: all at its target, one of them read-only exactly when it is. */
  lemma StepsOfOne(mounts: seq<GuestMount>, i: nat, t: string)
    requires i < |mounts| && mounts[i].Plannable()
    ensures Targets(PlanOne(mounts, i), t) <==> t == mounts[i].target
    ensures ReadOnlyStep(PlanOne(mounts, i), t) <==> t == mounts[i].target && mounts[i].readOnly
  {
    var steps := PlanOne(mounts, i);
    assert steps[0] in steps && steps[0].target == mounts[i].target;
    assert forall s :: s in steps ==> s.target == mounts[i].target && (s.flags.readOnly ==> mounts[i].readOnly);
    if mounts[i].readOnly {
      assert steps[|steps| - 1] in steps && steps[|steps| - 1].flags.readOnly;
    }
  }

  lemma {:induction false} StepsFlattened(parts: seq<seq<MountStep>>, s: MountStep)
    ensures s in Flatten(parts) <==> exists i :: 0 <= i < |parts| && s in parts[i]
  {
    if parts != [] {
      StepsFlattened(parts[..|parts| - 1], s);
    }
  }

  lemma PlanHasStep(mounts: seq<GuestMount>, i: nat, s: MountStep)
    requires Plannable(mounts) && i < |mounts| && s in PlanOne(mounts, i)
    ensures s in Flatten(Plan(mounts))
  {
    StepsFlattened(Plan(mounts), s);
    assert s in Plan(mounts)[i];
  }

  lemma PlanStepIsOf(mounts: seq<GuestMount>, s: MountStep) returns (i: nat)
    requires Plannable(mounts) && s in Flatten(Plan(mounts))
    ensures i < |mounts| && s in PlanOne(mounts, i)
  {
    StepsFlattened(Plan(mounts), s);
    i :| 0 <= i < |Plan(mounts)| && s in Plan(mounts)[i];
  }

  /** A target is mounted exactly when the spec names it, and has a read-only step exactly when
      some spec mount there is read-only. */
  lemma PlanTargets(mounts: seq<GuestMount>, t: string)
    requires Plannable(mounts)
    ensures Targets(Flatten(Plan(mounts)), t) <==> exists i :: 0 <= i < |mounts| && mounts[i].Target() == t
    ensures ReadOnlyStep(Flatten(Plan(mounts)), t) <==> ReadOnlyAt(mounts, t)
  {
    var pod := Flatten(Plan(mounts));
    if i :| 0 <= i < |mounts| && mounts[i].Target() == t {
      StepsOfOne(mounts, i, t);
      var s: MountStep :| s in PlanOne(mounts, i) && s.target == t;
      PlanHasStep(mounts, i, s);
    }
    if ReadOnlyAt(mounts, t) {
      var i :| 0 <= i < |mounts| && mounts[i].ReadOnly() && mounts[i].Target() == t;
      StepsOfOne(mounts, i, t);
      var s: MountStep :| s in PlanOne(mounts, i) && s.target == t && s.flags.readOnly;
      PlanHasStep(mounts, i, s);
    }
    if Targets(pod, t) {
      var s :| s in pod && s.target == t;
      var i := PlanStepIsOf(mounts, s);
      StepsOfOne(mounts, i, t);
    }
    if ReadOnlyStep(pod, t) {
      var s :| s in pod && s.target == t && s.flags.readOnly;
      var i := PlanStepIsOf(mounts, s);
      StepsOfOne(mounts, i, t);
    }
  }

  /** The visible steps of an accepted spec. */
  ghost predicate VisibleSteps(mounts: seq<GuestMount>, visible: seq<MountStep>)
    requires Plannable(mounts)
  {
    forall s :: s in visible <==> s in Flatten(Plan(mounts)) && !PrivateAt(mounts, s.target)
  }

  lemma VisibleStepsOfPlan(mounts: seq<GuestMount>)
    requires Plannable(mounts)
    ensures VisibleSteps(mounts, Visible(mounts, Flatten(Plan(mounts))))
  {
    forall s
      ensures s in Visible(mounts, Flatten(Plan(mounts))) <==>
              s in Flatten(Plan(mounts)) && !PrivateAt(mounts, s.target)
    {
      VisibleHas(mounts, Flatten(Plan(mounts)), s);
    }
  }

  /** Of an isolated spec, every re-exposed target is visible, none is or covers a private
      target, its bind is read-only exactly when some spec mount there is, and no visible spec
      mount is left out. */
  lemma ReExposureIsIsolated(mounts: seq<GuestMount>, visible: seq<MountStep>)
    requires Plannable(mounts) && Isolated(mounts) && VisibleSteps(mounts, visible)
    ensures forall r :: r in Ordered(visible) ==> r.readOnly == ReadOnlyAt(mounts, r.target)
    ensures forall r, t :: r in Ordered(visible) && PrivateAt(mounts, t) ==> !Under(t, r.target)
    ensures forall i :: 0 <= i < |mounts| && !PrivateAt(mounts, mounts[i].Target()) ==>
              exists r :: r in Ordered(visible) && r.target == mounts[i].Target()
  {
    OrderedMerges(visible);
    var pod, rs := Flatten(Plan(mounts)), Ordered(visible);
    forall r | r in rs
      ensures r.readOnly == ReadOnlyAt(mounts, r.target)
      ensures forall t :: PrivateAt(mounts, t) ==> !Under(t, r.target)
    {
      var s :| s in visible && s.target == r.target;
      PlanTargets(mounts, r.target);
      assert ReadOnlyStep(visible, r.target) <==> ReadOnlyStep(pod, r.target);
      assert Targets(pod, r.target);
      var i :| 0 <= i < |mounts| && mounts[i].Target() == r.target;
      assert !mounts[i].Private();
      assert forall t :: PrivateAt(mounts, t) ==> !Violates(mounts[i], t);
    }
    forall i | 0 <= i < |mounts| && !PrivateAt(mounts, mounts[i].Target())
      ensures exists r :: r in rs && r.target == mounts[i].Target()
    {
      PlanTargets(mounts, mounts[i].Target());
      var s :| s in pod && s.target == mounts[i].Target();
      assert s in visible;
    }
  }

  /** In the booted guest, the recursive bind of a re-exposed target copies no mount that a
      private entry made: everything a bind copies stands at or below its source. */
  lemma NoPrivateMountIsCopied(mounts: seq<GuestMount>, visible: seq<MountStep>, k: Kernel, r: Rebase, i: nat)
    requires Plannable(mounts) && Isolated(mounts) && VisibleSteps(mounts, visible)
    requires InPlace(Shapes(mounts), k, |mounts|)
    requires r in Ordered(visible) && 1 <= i <= |mounts| && Under(k.mnts[i].target, r.target)
    ensures !mounts[i - 1].Private()
  {
    ReExposureIsIsolated(mounts, visible);
    if mounts[i - 1].Private() {
      assert PrivateAt(mounts, mounts[i - 1].Target());
      assert false;
    }
  }

  /** An ancestor is re-exposed before its descendants, so it never covers them. */
  lemma AncestorsFirst(pod: seq<MountStep>, j: nat, k: nat)
    requires j < |Ordered(pod)| && k < |Ordered(pod)| && j != k
    requires Under(Ordered(pod)[k].target, Ordered(pod)[j].target)
    ensures j < k
  {
    OrderedMerges(pod);
    if k < j {
      UnderIsLonger(Ordered(pod)[k].target, Ordered(pod)[j].target);
      assert false;
    }
  }
}
