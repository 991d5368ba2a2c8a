/** The pod-mount planner: a declarative mount list compiled to ordered mount(2) steps. */
module MountPlan {
  import opened Paths

  datatype Kind = Virtiofs | Tmpfs | Bind | OtherKind

  /** One entry of the spec's mount list. `Nil` is a null entry; its getters give zero values. */
  datatype GuestMount =
    | Nil
    | Mount(kind: Kind, source: string, target: string, readOnly: bool, guestPrivate: bool)
  {
    function Source(): string { if Nil? then "" else source }
    function Target(): string { if Nil? then "" else target }
    predicate ReadOnly() { Mount? && readOnly }
    predicate Private() { Mount? && guestPrivate }
    predicate IsBind() { Mount? && kind.Bind? }
    predicate Plannable() { Mount? && !kind.OtherKind? }
    predicate WritableBind() { IsBind() && !readOnly }
  }

  /** A step's options, as the flag word they are OR-ed into: nosuid and nodev together
      (hardened), and one bit each for the rest. */
  datatype Flags = Flags(hardened: bool, bind: bool, rec: bool, remount: bool, readOnly: bool, detach: bool)

  const HARDENED := Flags(true, false, false, false, false, false)
  const BIND := Flags(false, true, false, false, false, false)
  const RBIND := Flags(false, true, true, false, false, false)
  const DETACH := Flags(false, false, false, false, false, true)

  /** The filesystem type a step names; none marks a bind, a remount or a detach. */
  datatype FSType = NoType | VirtiofsType | TmpfsType

  /** One mount(2) step. */
  datatype MountStep = MountStep(source: string, target: string, fsType: FSType, flags: Flags)

  datatype PlanError =
    | NilMount(at: nat) | NotAbsolute(at: nat) | NotClean(at: nat) | EmptySource(at: nat)
    | ControlCharacter(at: nat) | TmpfsSource(at: nat) | UnhandledKind(at: nat)

  datatype PlanResult = Planned(steps: seq<MountStep>) | Refused(error: PlanError)

  datatype Checked = Fine | Bad(error: PlanError)

  /** The length of t without one trailing slash. */
  function TrimmedLen(t: string): nat {
    if t != "" && t[|t| - 1] == '/' then |t| - 1 else |t|
  }

  /** mountPathUnder: source is target, or has target and a slash as its prefix. */
  predicate Under(source: string, target: string) {
    source == target ||
    (var n := TrimmedLen(target);
     n < |source| && source[n] == '/' && forall k :: 0 <= k < n ==> source[k] == target[k])
  }

  /** The prefix reading of Under, as the source writes it. */
  lemma UnderIsPrefix(source: string, target: string)
    ensures Under(source, target) <==>
            source == target || HasPrefix(source, target[..TrimmedLen(target)] + "/")
  {
    var n := TrimmedLen(target);
    var p := target[..n] + "/";
    if HasPrefix(source, p) {
      assert p[n] == '/' && forall k :: 0 <= k < n ==> p[k] == target[k];
      assert forall k :: 0 <= k < |p| ==> source[..|p|][k] == source[k];
    }
    if n < |source| && source[n] == '/' && forall k :: 0 <= k < n ==> source[k] == target[k] {
      assert source[..n + 1] == p;
    }
  }

  /** Only a strictly longer path lies strictly below a target. */
  lemma UnderIsLonger(source: string, target: string)
    requires Under(source, target) && |source| <= |target|
    ensures source == target
  {
    assert source != target ==> |source| == |target| && forall k :: 0 <= k < |source| ==> source[k] == target[k];
  }

  function CheckTarget(t: string, i: nat): Checked {
    if |t| == 0 || t[0] != '/' then Bad(NotAbsolute(i))
    else if !IsClean(t) then Bad(NotClean(i))
    else Fine
  }

  function CheckSource(s: string, i: nat): Checked {
    if s == "" then Bad(EmptySource(i))
    else if (exists k :: 0 <= k < |s| && (s[k] == '\0' || s[k] == '\n')) then Bad(ControlCharacter(i))
    else Fine
  }

  /** What entry i is refused for, in the order the planner looks. */
  function CheckMount(m: GuestMount, i: nat): (c: Checked)
    ensures c.Fine? ==> m.Plannable()
    ensures c.Bad? ==> c.error.at == i
  {
    if m.Nil? then Bad(NilMount(i))
    else if CheckTarget(m.target, i).Bad? then CheckTarget(m.target, i)
    else match m.kind
      case Tmpfs => if m.source != "" then Bad(TmpfsSource(i)) else Fine
      case OtherKind => Bad(UnhandledKind(i))
      case _ => CheckSource(m.source, i)
  }

  predicate Absolute(p: string) { |p| > 0 && p[0] == '/' }

  /** A source a kernel call can carry. */
  predicate LegalSource(s: string) { s != "" && '\0' !in s && '\n' !in s }

  /** An entry is accepted exactly when its target is absolute and its own lexical normal form and
      its kind is known, with a legal source where the kind has one and none where it has not. */
  lemma CheckMountExactly(m: GuestMount, i: nat)
    ensures CheckMount(m, i).Fine? <==>
            m.Plannable() && Absolute(m.target) && Clean(m.target) == m.target &&
            if m.kind.Tmpfs? then m.source == "" else LegalSource(m.source)
  {
    if m.Plannable() && Absolute(m.target) {
      IsCleanExactly(m.target);
    }
  }

  /** The fault a refusal names is one the entry has, and no fault the planner looks for earlier. */
  predicate Blames(m: GuestMount, e: PlanError) {
    match e
    case NilMount(_) => m.Nil?
    case NotAbsolute(_) => m.Mount? && !Absolute(m.target)
    case NotClean(_) => m.Mount? && Absolute(m.target) && Clean(m.target) != m.target
    case EmptySource(_) => m.Plannable() && !m.kind.Tmpfs? && m.source == ""
    case ControlCharacter(_) => m.Plannable() && !m.kind.Tmpfs? && ('\0' in m.source || '\n' in m.source)
    case TmpfsSource(_) => m.Plannable() && m.kind.Tmpfs? && m.source != ""
    case UnhandledKind(_) => m.Mount? && m.kind.OtherKind?
  }

  lemma RefusalSays(m: GuestMount, i: nat)
    requires CheckMount(m, i).Bad?
    ensures Blames(m, CheckMount(m, i).error)
  {
    if m.Mount? && Absolute(m.target) {
      IsCleanExactly(m.target);
    }
  }

  predicate Passes(mounts: seq<GuestMount>, i: nat)
    requires i < |mounts|
  {
    CheckMount(mounts[i], i).Fine?
  }

  /** The first n entries pass every check. */
  predicate Accepted(mounts: seq<GuestMount>, n: nat)
    requires n <= |mounts|
  {
    forall i {:trigger Passes(mounts, i)} :: 0 <= i < n ==> Passes(mounts, i)
  }

  /** No entry is null or of an unknown kind. */
  predicate Plannable(mounts: seq<GuestMount>) {
    PlannableUpTo(mounts, |mounts|)
  }

  predicate PlannableUpTo(mounts: seq<GuestMount>, n: nat)
    requires n <= |mounts|
  {
    forall i :: 0 <= i < n ==> mounts[i].Plannable()
  }

  /** Entry j is a writable bind whose source lies at or under mount i. */
  predicate StagedBy(mounts: seq<GuestMount>, i: nat, j: nat)
    requires i < |mounts| && j < |mounts|
  {
    j != i && mounts[j].WritableBind() && Under(mounts[j].Source(), mounts[i].Target())
  }

  predicate StagesWritableBind(mounts: seq<GuestMount>, i: nat)
    requires i < |mounts|
  {
    exists j :: 0 <= j < |mounts| && StagedBy(mounts, i, j)
  }

  /** Entry j is a read-only mount that mount i's source lies at or under. */
  predicate InheritsFrom(mounts: seq<GuestMount>, i: nat, j: nat)
    requires i < |mounts| && j < |mounts|
  {
    j != i && mounts[j].ReadOnly() && Under(mounts[i].Source(), mounts[j].Target())
  }

  predicate InheritsReadOnly(mounts: seq<GuestMount>, i: nat)
    requires i < |mounts|
  {
    exists j :: 0 <= j < |mounts| && InheritsFrom(mounts, i, j)
  }

  function BaseStep(m: GuestMount): MountStep
    requires m.Plannable()
  {
    match m.kind
    case Virtiofs => MountStep(m.source, m.target, VirtiofsType, HARDENED)
    case Tmpfs => MountStep("tmpfs", m.target, TmpfsType, HARDENED)
    case _ => MountStep(m.source, m.target, NoType, BIND)
  }

  function RemountStep(step: MountStep, ro: bool): MountStep {
    MountStep(step.source, step.target, NoType, BIND.(remount := true, readOnly := ro))
  }

  /** r changes nothing but the read-only bit of the mount that step s made, to ro. */
  predicate Remounts(r: MountStep, s: MountStep, ro: bool) {
    r.target == s.target && r.source == s.source && r.fsType.NoType? && r.flags.bind && r.flags.remount &&
    r.flags.readOnly == ro && !r.flags.rec && !r.flags.detach && !r.flags.hardened
  }

  /** readOnlyBind and perMountReadOnly: the mount, then a remount that sets the per-mount bit. */
  function ThenReadOnly(step: MountStep): seq<MountStep> { [step, RemountStep(step, true)] }

  /** writableBind: the bind, then a remount that clears the bit it inherited. */
  function ThenWritable(step: MountStep): seq<MountStep> { [step, RemountStep(step, false)] }

  /** readOnlyBindOrDirect: a bind or a staging mount takes the per-mount form, another fresh
      mount is read-only at its superblock. */
  function ReadOnlyBindOrDirect(step: MountStep, staging: bool): seq<MountStep> {
    if step.fsType.NoType? || staging then ThenReadOnly(step)
    else [step.(flags := step.flags.(readOnly := true))]
  }

  function PlanOne(mounts: seq<GuestMount>, i: nat): seq<MountStep>
    requires i < |mounts| && mounts[i].Plannable()
  {
    var step := BaseStep(mounts[i]);
    if mounts[i].readOnly then ReadOnlyBindOrDirect(step, StagesWritableBind(mounts, i))
    else if step.fsType.NoType? && InheritsReadOnly(mounts, i) then ThenWritable(step)
    else [step]
  }

  /** What every expansion has in common, whichever form it takes: one mount of the entry's own
      source at its target, nosuid and nodev exactly when it is not a bind, and at most one
      remount there, which leaves the mount read-only exactly when the entry is. A step without a
      remount carries the entry's read-only bit itself, unless it is a bind. */
  lemma EntrySteps(mounts: seq<GuestMount>, i: nat)
    requires i < |mounts| && mounts[i].Plannable()
    ensures
      var m, steps := mounts[i], PlanOne(mounts, i);
      1 <= |steps| <= 2 && steps[0].target == m.target &&
      !steps[0].flags.remount && !steps[0].flags.detach && !steps[0].flags.rec &&
      steps[0].source == (if m.kind.Tmpfs? then "tmpfs" else m.source) &&
      (steps[0].fsType == match m.kind case Virtiofs => VirtiofsType case Tmpfs => TmpfsType case _ => NoType) &&
      (steps[0].flags.bind <==> m.IsBind()) &&
      (steps[0].flags.hardened <==> !m.IsBind()) &&
      (|steps| == 2 ==> Remounts(steps[1], steps[0], m.readOnly) && !steps[0].flags.readOnly) &&
      (|steps| == 1 && !m.IsBind() ==> steps[0].flags.readOnly == m.readOnly)
  {
    var step := BaseStep(mounts[i]);
    assert mounts[i].readOnly ==> PlanOne(mounts, i) == ReadOnlyBindOrDirect(step, StagesWritableBind(mounts, i));
  }

  /** Every entry's steps, entry by entry. */
  function Plan(mounts: seq<GuestMount>): (parts: seq<seq<MountStep>>)
    requires Plannable(mounts)
    ensures |parts| == |mounts|
    ensures forall i :: 0 <= i < |mounts| ==> parts[i] == PlanOne(mounts, i)
  {
    seq(|mounts|, i requires 0 <= i < |mounts| => PlanOne(mounts, i))
  }

  function Flatten(parts: seq<seq<MountStep>>): seq<MountStep> {
    if parts == [] then [] else Flatten(parts[..|parts| - 1]) + parts[|parts| - 1]
  }

  method FindStaged(mounts: seq<GuestMount>, i: nat) returns (found: bool)
    requires i < |mounts|
    ensures found == StagesWritableBind(mounts, i)
  {
    for j := 0 to |mounts|
      invariant forall k :: 0 <= k < j ==> !StagedBy(mounts, i, k)
    {
      if StagedBy(mounts, i, j) {
        return true;
      }
    }
    return false;
  }

  method FindReadOnlyCover(mounts: seq<GuestMount>, i: nat) returns (found: bool)
    requires i < |mounts|
    ensures found == InheritsReadOnly(mounts, i)
  {
    for j := 0 to |mounts|
      invariant forall k :: 0 <= k < j ==> !InheritsFrom(mounts, i, k)
    {
      if InheritsFrom(mounts, i, j) {
        return true;
      }
    }
    return false;
  }

  /** The expansion of one checked entry. */
  method PlanEntry(mounts: seq<GuestMount>, i: nat) returns (steps: seq<MountStep>)
    requires i < |mounts| && mounts[i].Plannable()
    ensures steps == PlanOne(mounts, i)
  {
    var step := BaseStep(mounts[i]);
    if mounts[i].readOnly {
      var staging := FindStaged(mounts, i);
      return ReadOnlyBindOrDirect(step, staging);
    }
    if step.fsType.NoType? {
      var inherits := FindReadOnlyCover(mounts, i);
      if inherits {
        return ThenWritable(step);
      }
    }
    return [step];
  }

  /** The checks of one entry. */
  method Check(mounts: seq<GuestMount>, i: nat) returns (c: Checked)
    requires i < |mounts|
    ensures c.Fine? <==> Passes(mounts, i)
    ensures c.Fine? ==> mounts[i].Plannable()
    ensures c.Bad? ==> RefusedFor(mounts, c.error) && c.error.at == i
  {
    return CheckMount(mounts[i], i);
  }

  /** e is the complaint about the entry it names. */
  predicate RefusedFor(mounts: seq<GuestMount>, e: PlanError) {
    e.at < |mounts| && CheckMount(mounts[e.at], e.at) == Bad(e)
  }

  /** The steps of the first n entries. */
  function StepsUpTo(mounts: seq<GuestMount>, n: nat): seq<MountStep>
    requires n <= |mounts| && PlannableUpTo(mounts, n)
  {
    if n == 0 then [] else StepsUpTo(mounts, n - 1) + PlanOne(mounts, n - 1)
  }

  lemma {:induction false} StepsArePlan(mounts: seq<GuestMount>, plan: seq<seq<MountStep>>, n: nat)
    requires Plannable(mounts) && plan == Plan(mounts) && n <= |mounts|
    ensures Flatten(plan[..n]) == StepsUpTo(mounts, n)
  {
    if n > 0 {
      StepsArePlan(mounts, plan, n - 1);
      assert plan[..n][..n - 1] == plan[..n - 1];
    }
  }

  lemma StepsAreWholePlan(mounts: seq<GuestMount>)
    requires Plannable(mounts)
    ensures Flatten(Plan(mounts)) == StepsUpTo(mounts, |mounts|)
  {
    StepsArePlan(mounts, Plan(mounts), |mounts|);
    assert Plan(mounts)[..|mounts|] == Plan(mounts);
  }

  method AddEntry(mounts: seq<GuestMount>, i: nat, out: seq<MountStep>) returns (more: seq<MountStep>)
    requires i < |mounts| && PlannableUpTo(mounts, i) && out == StepsUpTo(mounts, i) && mounts[i].Plannable()
    ensures PlannableUpTo(mounts, i + 1) && more == StepsUpTo(mounts, i + 1)
  {
    var steps := PlanEntry(mounts, i);
    return out + steps;
  }

  /** PodMounts: the first bad entry refuses the whole list; otherwise the plan is every
      entry's steps in list order. */
  method PodMounts(mounts: seq<GuestMount>) returns (r: PlanResult)
    ensures r.Planned? <==> Accepted(mounts, |mounts|)
    ensures r.Planned? ==> Plannable(mounts) && r.steps == Flatten(Plan(mounts))
    ensures r.Refused? ==>
              RefusedFor(mounts, r.error) && Accepted(mounts, r.error.at) && Blames(mounts[r.error.at], r.error)
  {
    var out: seq<MountStep> := [];
    for i := 0 to |mounts|
      invariant Accepted(mounts, i) && PlannableUpTo(mounts, i) && out == StepsUpTo(mounts, i)
    {
      var c := Check(mounts, i);
      if c.Bad? {
        RefusalSays(mounts[i], i);
        return Refused(c.error);
      }
      out := AddEntry(mounts, i, out);
    }
    StepsAreWholePlan(mounts);
    return Planned(out);
  }
}
