/** The mount list as the kernel sees it, and what booting it does entry by entry: each entry
    carries what it mounts and which entries' targets cover its source. */
module MountShape {
  import opened MountPlan
  import opened MountKernel

  datatype Shape = Shape(target: string, fs: FSType, source: string, bind: bool, readOnly: bool, under: set<nat>) {
    predicate WritableBind() { bind && !readOnly }
  }

  predicate Stages(s: seq<Shape>, i: nat) {
    exists j :: 0 <= j < |s| && j != i && s[j].WritableBind() && i in s[j].under
  }

  predicate Inherits(s: seq<Shape>, i: nat)
    requires i < |s|
  {
    exists j :: 0 <= j < |s| && j != i && s[j].readOnly && j in s[i].under
  }

  /** Entry j can end on a read-only superblock: it is a read-only fresh mount nobody stages a
      writable bind from, or a bind out of an earlier entry that can. */
  predicate MayBeSealed(s: seq<Shape>, j: nat)
    requires j < |s|
    decreases j
  {
    if s[j].bind then exists k: nat :: k < j && k in s[j].under && MayBeSealed(s, k)
    else s[j].readOnly && !Stages(s, j)
  }

  /** No writable bind reaches a read-only superblock through a chain of earlier binds. */
  predicate NoSealedWritableBind(s: seq<Shape>) {
    forall i :: 0 <= i < |s| && s[i].WritableBind() ==> !MayBeSealed(s, i)
  }

  /** The condition a spec author can see at a glance: no writable bind takes its source at or
      under an earlier read-only bind. */
  predicate NoWritableUnderReadOnlyBind(s: seq<Shape>) {
    forall i, j: nat | j < i < |s| && s[i].WritableBind() && s[j].bind && s[j].readOnly :: j !in s[i].under
  }

  /** pick[n] names the mount the source of mount n resolves to: an earlier mount covering it,
      or mount 0, the guest root. */
  predicate Resolved(s: seq<Shape>, pick: seq<nat>, n: nat)
    requires 1 <= n <= |s|
  {
    n < |pick| && pick[n] < n && (pick[n] == 0 || pick[n] - 1 in s[n - 1].under)
  }

  /** What entry n - 1 adds to the kernel: mount n. */
  function AfterOne(s: seq<Shape>, n: nat, k: Kernel, pick: seq<nat>): (o: Outcome)
    requires 1 <= n <= |s| && k.Valid() && |k.mnts| == n
    ensures o.Running? ==> o.k.Valid() && |o.k.mnts| == n + 1 && k.mnts <= o.k.mnts && k.supers <= o.k.supers
    ensures o.Failed? <==> s[n - 1].bind && !Resolved(s, pick, n)
  {
    var m := s[n - 1];
    if !m.bind then
      Running(Kernel(k.mnts + [Mnt(m.target, |k.supers|, "", m.readOnly)],
                     k.supers + [Super(m.fs, m.source, m.readOnly && !Stages(s, n - 1))]))
    else if !Resolved(s, pick, n) then Failed
    else
      var from := k.mnts[pick[n]];
      var bit := m.readOnly || (from.readOnly && !Inherits(s, n - 1));
      Running(k.(mnts := k.mnts + [Mnt(m.target, from.sb, from.dir + Below(m.source, from.target), bit)]))
  }

  function Boot(s: seq<Shape>, n: nat, pick: seq<nat>): (o: Outcome)
    requires n <= |s|
    ensures o.Running? ==> o.k.Valid() && |o.k.mnts| == n + 1
  {
    if n == 0 then Running(BOOT)
    else match Boot(s, n - 1, pick)
      case Failed => Failed
      case Running(k) => AfterOne(s, n, k, pick)
  }

  /** Mounts stand at the targets of the entries that made them. */
  predicate InPlace(s: seq<Shape>, k: Kernel, n: nat)
    requires n <= |s|
  {
    |k.mnts| == n + 1 && forall i :: 1 <= i <= n ==> k.mnts[i].target == s[i - 1].target
  }

  lemma {:induction false} BootInPlace(s: seq<Shape>, n: nat, pick: seq<nat>)
    requires n <= |s|
    ensures var o := Boot(s, n, pick); o.Running? ==> InPlace(s, o.k, n)
  {
    if n > 0 {
      BootInPlace(s, n - 1, pick);
    }
  }

  /** The n-th part of the plan does what entry n - 1 does. */
  ghost predicate Does(s: seq<Shape>, parts: seq<seq<MountStep>>, n: nat, pick: seq<nat>)
    requires 1 <= n <= |s| == |parts|
  {
    forall k: Kernel :: k.Valid() && InPlace(s, k, n - 1) ==> Run(k, pick, parts[n - 1]) == AfterOne(s, n, k, pick)
  }

  lemma {:induction false} PartsBoot(s: seq<Shape>, parts: seq<seq<MountStep>>, n: nat, pick: seq<nat>)
    requires n <= |s| == |parts| && forall i :: 1 <= i <= |s| ==> Does(s, parts, i, pick)
    ensures Run(BOOT, pick, Flatten(parts[..n])) == Boot(s, n, pick)
  {
    if n > 0 {
      PartsBoot(s, parts, n - 1, pick);
      BootInPlace(s, n - 1, pick);
      assert Does(s, parts, n, pick);
      assert parts[..n][..n - 1] == parts[..n - 1];
      RunConcat(BOOT, pick, Flatten(parts[..n - 1]), parts[n - 1]);
    }
  }

  /** Mount i is where entry i - 1 put it and refuses writes exactly when that entry says so. */
  predicate Honoured(s: seq<Shape>, k: Kernel, i: nat)
    requires 1 <= i <= |s| && k.Valid() && i < |k.mnts|
  {
    k.mnts[i].target == s[i - 1].target && (k.Effective(i) <==> s[i - 1].readOnly)
  }

  predicate Faithful(s: seq<Shape>, k: Kernel) {
    k.Valid() && |k.mnts| == |s| + 1 && forall i :: 1 <= i <= |s| ==> Honoured(s, k, i)
  }

  /** One row of a run's invariant: the mount's own bit is exactly what the spec asked for, and
      it is sealed only if it may be. */
  predicate Row(s: seq<Shape>, k: Kernel, i: nat)
    requires 1 <= i <= |s| && k.Valid() && i < |k.mnts|
  {
    k.mnts[i].target == s[i - 1].target && k.mnts[i].readOnly == s[i - 1].readOnly &&
    (k.Sealed(i) ==> MayBeSealed(s, i - 1))
  }

  predicate Progress(s: seq<Shape>, n: nat, k: Kernel)
    requires n <= |s|
  {
    k.Valid() && |k.mnts| == n + 1 && !k.mnts[0].readOnly && !k.Sealed(0) &&
    forall i :: 1 <= i <= n ==> Row(s, k, i)
  }

  lemma NewRow(s: seq<Shape>, n: nat, k: Kernel, pick: seq<nat>)
    requires 1 <= n <= |s| && Progress(s, n - 1, k) && AfterOne(s, n, k, pick).Running?
    ensures Row(s, AfterOne(s, n, k, pick).k, n)
  {
    if s[n - 1].bind {
      var p := pick[n];
      if p > 0 {
        assert Row(s, k, p);
        assert k.mnts[p].readOnly ==> Inherits(s, n - 1);
      }
    }
  }

  lemma {:induction false} BootProgress(s: seq<Shape>, n: nat, pick: seq<nat>)
    requires n <= |s|
    ensures Boot(s, n, pick).Running? ==> Progress(s, n, Boot(s, n, pick).k)
  {
    if n > 0 && Boot(s, n, pick).Running? {
      BootProgress(s, n - 1, pick);
      var k, k' := Boot(s, n - 1, pick).k, Boot(s, n, pick).k;
      NewRow(s, n, k, pick);
      forall i | 1 <= i <= n
        ensures Row(s, k', i)
      {
        if i < n {
          assert Row(s, k, i);
        }
      }
    }
  }

  lemma BootIsFaithful(s: seq<Shape>, pick: seq<nat>)
    requires NoSealedWritableBind(s)
    ensures Boot(s, |s|, pick).Running? ==> Faithful(s, Boot(s, |s|, pick).k)
  {
    BootProgress(s, |s|, pick);
    var o := Boot(s, |s|, pick);
    if o.Running? {
      forall i | 1 <= i <= |s|
        ensures Honoured(s, o.k, i)
      {
        assert Row(s, o.k, i);
      }
    }
  }

  /** From a bind that may be sealed, follow an entry that may be; otherwise the guest root. */
  ghost function Adversary(s: seq<Shape>, j: nat): (p: nat)
    requires j < |s|
    ensures p <= j
    ensures s[j].bind ==> (p > 0 <==> MayBeSealed(s, j))
    ensures p > 0 ==> p - 1 in s[j].under && MayBeSealed(s, p - 1)
  {
    if s[j].bind && MayBeSealed(s, j) then
      var k: nat :| k < j && k in s[j].under && MayBeSealed(s, k);
      k + 1
    else 0
  }

  ghost function AdversaryPicks(s: seq<Shape>): (pick: seq<nat>)
    ensures |pick| == |s| + 1
    ensures forall i :: 1 <= i <= |s| ==> pick[i] == Adversary(s, i - 1)
  {
    seq(|s| + 1, i requires 0 <= i <= |s| => if i == 0 then 0 else Adversary(s, i - 1))
  }

  lemma {:induction false} WritableBindNotSealed(s: seq<Shape>, i: nat)
    requires NoWritableUnderReadOnlyBind(s) && i < |s| && s[i].WritableBind()
    ensures !MayBeSealed(s, i)
    decreases i
  {
    if MayBeSealed(s, i) {
      var k: nat :| k < i && k in s[i].under && MayBeSealed(s, k);
      if s[k].WritableBind() {
        WritableBindNotSealed(s, k);
      }
      assert false;
    }
  }

  /** Entry j stands on a read-only superblock when sources resolve as `pick` says. */
  predicate SealedBy(s: seq<Shape>, pick: seq<nat>, j: nat)
    requires j < |s| < |pick|
    decreases j
  {
    if s[j].bind then 0 < pick[j + 1] <= j && SealedBy(s, pick, pick[j + 1] - 1)
    else s[j].readOnly && !Stages(s, j)
  }

  /** No writable bind's chain of sources, followed as `pick` says, ends on a read-only superblock. */
  predicate NoneSealedBy(s: seq<Shape>, pick: seq<nat>)
    requires |s| < |pick|
  {
    forall i :: 0 <= i < |s| && s[i].WritableBind() ==> !SealedBy(s, pick, i)
  }

  predicate SealedRow(s: seq<Shape>, pick: seq<nat>, k: Kernel, i: nat)
    requires 1 <= i <= |s| < |pick| && k.Valid() && i < |k.mnts|
  {
    k.Sealed(i) == SealedBy(s, pick, i - 1)
  }

  lemma NewSealedRow(s: seq<Shape>, n: nat, pick: seq<nat>, k: Kernel)
    requires 1 <= n <= |s| < |pick| && k.Valid() && |k.mnts| == n && !k.Sealed(0)
    requires forall i :: 1 <= i < n ==> SealedRow(s, pick, k, i)
    requires AfterOne(s, n, k, pick).Running?
    ensures SealedRow(s, pick, AfterOne(s, n, k, pick).k, n)
  {
    if s[n - 1].bind && pick[n] > 0 {
      assert SealedRow(s, pick, k, pick[n]);
    }
  }

  lemma {:induction false} BootSeals(s: seq<Shape>, n: nat, pick: seq<nat>)
    requires n <= |s| < |pick| && Boot(s, n, pick).Running?
    ensures
      var k := Boot(s, n, pick).k;
      !k.Sealed(0) && forall i :: 1 <= i <= n ==> SealedRow(s, pick, k, i)
  {
    if n > 0 {
      BootSeals(s, n - 1, pick);
      var k, k' := Boot(s, n - 1, pick).k, Boot(s, n, pick).k;
      forall i | 1 <= i <= n
        ensures SealedRow(s, pick, k', i)
      {
        if i < n {
          assert SealedRow(s, pick, k, i);
        } else {
          NewSealedRow(s, n, pick, k);
        }
      }
    }
  }

  /** Mount i is sealed exactly when its entry may be. */
  predicate AsSealedAsCanBe(s: seq<Shape>, k: Kernel, i: nat)
    requires 1 <= i <= |s| && k.Valid() && i < |k.mnts|
  {
    k.Sealed(i) == MayBeSealed(s, i - 1)
  }

  lemma {:induction false} AdversarySeals(s: seq<Shape>, j: nat)
    requires j < |s|
    ensures SealedBy(s, AdversaryPicks(s), j) <==> MayBeSealed(s, j)
    decreases j
  {
    var p := Adversary(s, j);
    assert AdversaryPicks(s)[j + 1] == p;
    if s[j].bind && p > 0 {
      AdversarySeals(s, p - 1);
    }
  }

  lemma {:induction false} AdversaryRuns(s: seq<Shape>, n: nat)
    requires n <= |s|
    ensures Boot(s, n, AdversaryPicks(s)).Running?
  {
    if n > 0 {
      AdversaryRuns(s, n - 1);
      assert AdversaryPicks(s)[n] == Adversary(s, n - 1);
    }
  }

  /** Against those resolutions the boot completes with every mount that may be sealed, sealed. */
  lemma AdversaryBoots(s: seq<Shape>) returns (k: Kernel)
    ensures Boot(s, |s|, AdversaryPicks(s)) == Running(k)
    ensures forall i :: 1 <= i <= |s| ==> AsSealedAsCanBe(s, k, i)
  {
    AdversaryRuns(s, |s|);
    BootSeals(s, |s|, AdversaryPicks(s));
    k := Boot(s, |s|, AdversaryPicks(s)).k;
    forall i | 1 <= i <= |s|
      ensures AsSealedAsCanBe(s, k, i)
    {
      AdversarySeals(s, i - 1);
      assert SealedRow(s, AdversaryPicks(s), k, i);
    }
  }

  /** Of one resolution: its boot is faithful exactly when it seals no writable bind. */
  lemma BootIsFaithfulExactly(s: seq<Shape>, pick: seq<nat>)
    requires |s| < |pick| && Boot(s, |s|, pick).Running?
    ensures Faithful(s, Boot(s, |s|, pick).k) <==> NoneSealedBy(s, pick)
  {
    BootProgress(s, |s|, pick);
    BootSeals(s, |s|, pick);
    var k := Boot(s, |s|, pick).k;
    forall i | 1 <= i <= |s|
      ensures Honoured(s, k, i) <==> (s[i - 1].WritableBind() ==> !SealedBy(s, pick, i - 1))
    {
      assert Row(s, k, i) && SealedRow(s, pick, k, i);
    }
    if Faithful(s, k) {
      forall i | 0 <= i < |s| && s[i].WritableBind()
        ensures !SealedBy(s, pick, i)
      {
        assert Honoured(s, k, i + 1);
      }
    }
  }

  /** The newest mount covering a source among the first n entries' mounts: later mounts hide
      earlier ones at and below their targets. Mount 0, the guest root, covers everything. */
  function NewestCovering(under: set<nat>, n: nat): (p: nat)
    ensures p <= n && (p > 0 ==> p - 1 in under)
    ensures forall j :: p <= j < n ==> j !in under
  {
    if n == 0 then 0 else if n - 1 in under then n else NewestCovering(under, n - 1)
  }

  /** Linux's own resolution of every source. */
  function LinuxPicks(s: seq<Shape>): (pick: seq<nat>)
    ensures |pick| == |s| + 1
    ensures forall i :: 1 <= i <= |s| ==> pick[i] == NewestCovering(s[i - 1].under, i - 1)
  {
    seq(|s| + 1, i requires 0 <= i <= |s| => if i == 0 then 0 else NewestCovering(s[i - 1].under, i - 1))
  }

  lemma LinuxResolved(s: seq<Shape>, n: nat)
    requires 1 <= n <= |s|
    ensures Resolved(s, LinuxPicks(s), n)
  {
    assert LinuxPicks(s)[n] == NewestCovering(s[n - 1].under, n - 1);
  }

  lemma {:induction false} LinuxBoots(s: seq<Shape>, n: nat)
    requires n <= |s|
    ensures Boot(s, n, LinuxPicks(s)).Running?
  {
    if n > 0 {
      LinuxBoots(s, n - 1);
      LinuxResolved(s, n);
    }
  }

  /** A bind out of a bind out of a sealed mount is sealed. */
  lemma ChainSeals(s: seq<Shape>)
    requires |s| == 3 && !s[0].bind && s[0].readOnly && !Stages(s, 0) && s[1].bind && s[2].bind
    requires 0 in s[1].under && 1 in s[2].under
    ensures SealedBy(s, LinuxPicks(s), 2)
  {
    var pick := LinuxPicks(s);
    assert SealedBy(s, pick, 0);
    assert pick[2] == 1 && pick[3] == 2;
    assert SealedBy(s, pick, 1);
  }
}
