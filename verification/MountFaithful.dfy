/** The compiled plan means what the spec says: run in the kernel model, every spec mount ends
    read-only exactly when the spec asks for it, and exactly for which specs that can fail. */
module MountFaithful {
  import opened MountPlan
  import opened MountKernel
  import opened MountShape

  /** The filesystem an entry brings with it; a bind brings none. */
  function TypeOf(m: GuestMount): FSType {
    if m.Nil? then NoType
    else match m.kind
      case Virtiofs => VirtiofsType
      case Tmpfs => TmpfsType
      case _ => NoType
  }

  function ShapeOf(mounts: seq<GuestMount>, i: nat): Shape
    requires i < |mounts|
  {
    Shape(mounts[i].Target(), TypeOf(mounts[i]), if TypeOf(mounts[i]).TmpfsType? then "tmpfs" else mounts[i].Source(),
          mounts[i].IsBind(), mounts[i].ReadOnly(),
          set j: nat | j < |mounts| && Under(mounts[i].Source(), mounts[j].Target()))
  }

  function Shapes(mounts: seq<GuestMount>): (s: seq<Shape>)
    ensures |s| == |mounts|
    ensures forall i :: 0 <= i < |mounts| ==> s[i] == ShapeOf(mounts, i)
  {
    seq(|mounts|, i requires 0 <= i < |mounts| => ShapeOf(mounts, i))
  }

  lemma UnderIs(mounts: seq<GuestMount>, i: nat, j: nat)
    requires i < |mounts| && j < |mounts|
    ensures j in Shapes(mounts)[i].under <==> Under(mounts[i].Source(), mounts[j].Target())
  {
  }

  /** The planner's two scans are the shape's. */
  lemma ScansAgree(mounts: seq<GuestMount>, i: nat)
    requires i < |mounts|
    ensures Stages(Shapes(mounts), i) == StagesWritableBind(mounts, i)
    ensures Inherits(Shapes(mounts), i) == InheritsReadOnly(mounts, i)
  {
    var s := Shapes(mounts);
    forall j | 0 <= j < |mounts|
      ensures StagedBy(mounts, i, j) <==> j != i && s[j].WritableBind() && i in s[j].under
      ensures InheritsFrom(mounts, i, j) <==> j != i && s[j].readOnly && j in s[i].under
    {
    }
  }

  lemma RemountLast(k: Kernel, pick: seq<nat>, step: MountStep, ro: bool)
    requires k.Valid() && k.mnts[|k.mnts| - 1].target == step.target
    ensures
      var n := |k.mnts| - 1;
      Run(k, pick, [RemountStep(step, ro)]) == Running(k.(mnts := k.mnts[..n] + [k.mnts[n].(readOnly := ro)]))
  {
    var n := |k.mnts| - 1;
    assert Newest(k.mnts, step.target, |k.mnts|) == n;
    assert k.mnts[n := k.mnts[n].(readOnly := ro)] == k.mnts[..n] + [k.mnts[n].(readOnly := ro)];
  }

  /** The one or two steps of an entry, run: the step that creates the mount decides success and
      the superblock, and the remount, when there is one, the mount's own bit. */
  lemma RunEntry(k: Kernel, pick: seq<nat>, steps: seq<MountStep>, ro: bool)
    requires k.Valid() && steps != [] && !steps[0].flags.remount
    requires steps == [steps[0]] || steps == [steps[0], RemountStep(steps[0], ro)]
    ensures
      var o := Exec(k, pick, steps[0]);
      Run(k, pick, steps) ==
      if o.Failed? || |steps| == 1 then o
      else Running(o.k.(mnts := k.mnts + [o.k.mnts[|k.mnts|].(readOnly := ro)]))
  {
    var o := Exec(k, pick, steps[0]);
    assert Run(k, pick, steps) == if o.Failed? then Failed else Run(o.k, pick, steps[1..]);
    if o.Running? {
      assert o.k.mnts[..|k.mnts|] == k.mnts;
      if |steps| == 2 {
        assert steps[1..] == [RemountStep(steps[0], ro)];
        RemountLast(o.k, pick, steps[0], ro);
      }
    }
  }

  /** One entry's steps do to the kernel what its shape says. */
  lemma RunOne(mounts: seq<GuestMount>, n: nat, k: Kernel, pick: seq<nat>)
    requires 1 <= n <= |mounts| && mounts[n - 1].Plannable() && k.Valid() && InPlace(Shapes(mounts), k, n - 1)
    ensures Run(k, pick, PlanOne(mounts, n - 1)) == AfterOne(Shapes(mounts), n, k, pick)
  {
    var m, s := mounts[n - 1], Shapes(mounts);
    assert s[n - 1] == ShapeOf(mounts, n - 1);
    ScansAgree(mounts, n - 1);
    var steps := PlanOne(mounts, n - 1);
    RunEntry(k, pick, steps, m.readOnly);
    if m.IsBind() {
      SourceResolves(mounts, n, k, pick);
    }
  }

  lemma SourceResolves(mounts: seq<GuestMount>, n: nat, k: Kernel, pick: seq<nat>)
    requires 1 <= n <= |mounts| && InPlace(Shapes(mounts), k, n - 1)
    ensures Resolves(k.mnts, pick, mounts[n - 1].Source()) <==> Resolved(Shapes(mounts), pick, n)
  {
    if n < |pick| && 0 < pick[n] < n {
      UnderIs(mounts, n - 1, pick[n] - 1);
    }
  }

  /** The flattened plan, run step by step, is the entry-by-entry boot. */
  lemma WholePlanBoots(mounts: seq<GuestMount>, pick: seq<nat>)
    requires Plannable(mounts)
    ensures Run(BOOT, pick, Flatten(Plan(mounts))) == Boot(Shapes(mounts), |mounts|, pick)
  {
    var s, parts := Shapes(mounts), Plan(mounts);
    forall i | 1 <= i <= |mounts|
      ensures Does(s, parts, i, pick)
    {
      forall k: Kernel | k.Valid() && InPlace(s, k, i - 1)
        ensures Run(k, pick, parts[i - 1]) == AfterOne(s, i, k, pick)
      {
        RunOne(mounts, i, k, pick);
      }
    }
    PartsBoot(s, parts, |mounts|, pick);
    assert parts[..|mounts|] == parts;
  }

  /** Compiler correctness: however each bind source resolves among the mounts covering it, a
      completed boot leaves every mount read-only exactly when the spec says so. */
  lemma PlanIsFaithful(mounts: seq<GuestMount>, pick: seq<nat>)
    requires Plannable(mounts) && NoSealedWritableBind(Shapes(mounts))
    ensures
      var o := Run(BOOT, pick, Flatten(Plan(mounts)));
      o.Running? ==> Faithful(Shapes(mounts), o.k)
  {
    WholePlanBoots(mounts, pick);
    BootIsFaithful(Shapes(mounts), pick);
  }

  /** No writable bind sourced at or under an earlier read-only bind's target is enough. */
  lemma SimpleConditionSuffices(mounts: seq<GuestMount>, pick: seq<nat>)
    requires Plannable(mounts) && NoWritableUnderReadOnlyBind(Shapes(mounts))
    ensures
      var o := Run(BOOT, pick, Flatten(Plan(mounts)));
      o.Running? ==> Faithful(Shapes(mounts), o.k)
  {
    var s := Shapes(mounts);
    forall i | 0 <= i < |s| && s[i].WritableBind()
      ensures !MayBeSealed(s, i)
    {
      WritableBindNotSealed(s, i);
    }
    PlanIsFaithful(mounts, pick);
  }

  /** Exactly when the plan is faithful under every resolution. */
  lemma FaithfulExactly(mounts: seq<GuestMount>)
    requires Plannable(mounts)
    ensures NoSealedWritableBind(Shapes(mounts)) <==>
            forall pick: seq<nat> | Run(BOOT, pick, Flatten(Plan(mounts))).Running? ::
              Faithful(Shapes(mounts), Run(BOOT, pick, Flatten(Plan(mounts))).k)
  {
    var s := Shapes(mounts);
    if NoSealedWritableBind(s) {
      forall pick: seq<nat> | Run(BOOT, pick, Flatten(Plan(mounts))).Running?
        ensures Faithful(s, Run(BOOT, pick, Flatten(Plan(mounts))).k)
      {
        PlanIsFaithful(mounts, pick);
      }
    } else {
      var i :| 0 <= i < |s| && s[i].WritableBind() && MayBeSealed(s, i);
      var pick := AdversaryPicks(s);
      WholePlanBoots(mounts, pick);
      var k := AdversaryBoots(s);
      assert AsSealedAsCanBe(s, k, i + 1);
      assert !Honoured(s, k, i + 1);
    }
  }

  /** Exactly when the plan is faithful under one resolution. */
  lemma FaithfulUnder(mounts: seq<GuestMount>, pick: seq<nat>)
    requires Plannable(mounts) && |mounts| < |pick| && Run(BOOT, pick, Flatten(Plan(mounts))).Running?
    ensures Faithful(Shapes(mounts), Run(BOOT, pick, Flatten(Plan(mounts))).k) <==> NoneSealedBy(Shapes(mounts), pick)
  {
    WholePlanBoots(mounts, pick);
    BootIsFaithfulExactly(Shapes(mounts), pick);
  }

  /** Mount p is the newest of the first i that covers the source. */
  predicate NewestOver(mnts: seq<Mnt>, source: string, i: nat, p: nat)
    requires p < i <= |mnts|
  {
    (p > 0 ==> Under(source, mnts[p].target)) && forall j :: p < j < i ==> !Under(source, mnts[j].target)
  }

  lemma LinuxResolves(mounts: seq<GuestMount>, k: Kernel, i: nat)
    requires 1 <= i <= |mounts| && InPlace(Shapes(mounts), k, |mounts|)
    ensures
      var p := LinuxPicks(Shapes(mounts))[i];
      p < i && NewestOver(k.mnts, mounts[i - 1].Source(), i, p)
  {
    var under := Shapes(mounts)[i - 1].under;
    forall j: nat | j < |mounts|
      ensures j in under <==> Under(mounts[i - 1].Source(), mounts[j].Target())
    {
      UnderIs(mounts, i - 1, j);
    }
    forall j | LinuxPicks(Shapes(mounts))[i] < j < i
      ensures !Under(mounts[i - 1].Source(), k.mnts[j].target)
    {
      assert j - 1 !in under;
    }
  }

  /** The boot in which every source resolves to the newest mount over it, as Linux resolves it,
      completes, and is faithful exactly when no writable bind's chain of sources, followed that
      way, ends on a read-only superblock. */
  lemma LinuxBootIsFaithful(mounts: seq<GuestMount>) returns (k: Kernel)
    requires Plannable(mounts)
    ensures Run(BOOT, LinuxPicks(Shapes(mounts)), Flatten(Plan(mounts))) == Running(k) && |k.mnts| == |mounts| + 1
    ensures forall i :: 1 <= i <= |mounts| ==>
              var p := LinuxPicks(Shapes(mounts))[i];
              p < i && NewestOver(k.mnts, mounts[i - 1].Source(), i, p)
    ensures Faithful(Shapes(mounts), k) <==> NoneSealedBy(Shapes(mounts), LinuxPicks(Shapes(mounts)))
  {
    var s := Shapes(mounts);
    LinuxBoots(s, |mounts|);
    WholePlanBoots(mounts, LinuxPicks(s));
    BootInPlace(s, |mounts|, LinuxPicks(s));
    k := Boot(s, |mounts|, LinuxPicks(s)).k;
    forall i | 1 <= i <= |mounts|
      ensures LinuxPicks(s)[i] < i && NewestOver(k.mnts, mounts[i - 1].Source(), i, LinuxPicks(s)[i])
    {
      LinuxResolves(mounts, k, i);
    }
    FaithfulUnder(mounts, LinuxPicks(s));
  }

  const SHARE := Mount(Virtiofs, "share", "/a", true, false)
  const READ_ONLY_BIND := Mount(Bind, "/a", "/b", true, false)
  const WRITABLE_BIND := Mount(Bind, "/b", "/c", false, false)

  lemma ExampleIsAccepted()
    ensures Accepted([SHARE, READ_ONLY_BIND, WRITABLE_BIND], 3)
  {
  }

  lemma ExampleShape(mounts: seq<GuestMount>)
    requires mounts == [SHARE, READ_ONLY_BIND, WRITABLE_BIND]
    ensures
      var s := Shapes(mounts);
      0 in s[1].under && 1 in s[2].under && !s[0].bind && s[0].readOnly && s[1].bind && s[2].bind && !Stages(s, 0)
  {
    UnderIs(mounts, 1, 0);
    UnderIs(mounts, 2, 1);
    UnderIs(mounts, 2, 0);
    assert !Under("/b", "/a");
  }

  /** The failing family is real: a read-only share, a read-only bind out of it, and a writable
      bind out of that bind. The planner accepts them, the boot completes as Linux resolves it,
      and the writable bind refuses writes. */
  lemma SealedWritableBindExample(mounts: seq<GuestMount>) returns (k: Kernel)
    requires mounts == [SHARE, READ_ONLY_BIND, WRITABLE_BIND]
    ensures Accepted(mounts, |mounts|) && Plannable(mounts) && mounts[2].WritableBind()
    ensures Run(BOOT, LinuxPicks(Shapes(mounts)), Flatten(Plan(mounts))) == Running(k)
    ensures |k.mnts| == 4 && k.Effective(3)
  {
    ExampleIsAccepted();
    ExampleShape(mounts);
    ChainSeals(Shapes(mounts));
    k := LinuxBootIsFaithful(mounts);
    WholePlanBoots(mounts, LinuxPicks(Shapes(mounts)));
    BootSeals(Shapes(mounts), 3, LinuxPicks(Shapes(mounts)));
    assert SealedRow(Shapes(mounts), LinuxPicks(Shapes(mounts)), k, 3);
  }
}
