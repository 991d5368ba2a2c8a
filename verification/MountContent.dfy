/** What a booted pod shows at its mount points: which filesystem, and which directory of it. */
module MountContent {
  import opened MountPlan
  import opened MountKernel
  import opened MountShape
  import opened MountFaithful

  /** Mount i stands on a superblock no earlier mount stands on. */
  predicate OnItsOwn(k: Kernel, i: nat)
    requires i < |k.mnts|
  {
    forall j :: 0 <= j < i ==> k.mnts[j].sb != k.mnts[i].sb
  }

  /** Mount i shows the place its source names: below the mount the source resolved to. */
  predicate ShowsSource(k: Kernel, pick: seq<nat>, i: nat, source: string)
    requires i < |k.mnts|
  {
    i < |pick| && pick[i] < i &&
    var from := k.mnts[pick[i]];
    (pick[i] == 0 || Under(source, from.target)) &&
    k.mnts[i].sb == from.sb && k.mnts[i].dir == from.dir + Below(source, from.target)
  }

  /** Mount i shows the whole of a filesystem of its own, itself read-only or not. */
  predicate ShowsOwn(k: Kernel, i: nat, fs: FSType, source: string, sealed: bool)
    requires k.Valid() && i < |k.mnts|
  {
    OnItsOwn(k, i) && k.mnts[i].dir == "" && k.supers[k.mnts[i].sb] == Super(fs, source, sealed)
  }

  /** Some writable bind of the list is out of m's target. */
  predicate ExportsWritable(mounts: seq<GuestMount>, m: GuestMount) {
    exists j :: 0 <= j < |mounts| && mounts[j].Mount? && mounts[j].kind == Bind && !mounts[j].readOnly &&
                Under(mounts[j].source, m.Target())
  }

  /** Mount i shows what entry i - 1 asks for. */
  predicate Shows(mounts: seq<GuestMount>, k: Kernel, pick: seq<nat>, i: nat)
    requires k.Valid() && 1 <= i <= |mounts| && i < |k.mnts|
  {
    var m := mounts[i - 1];
    k.mnts[i].target == m.Target() && m.Mount? &&
    match m.kind
    case Virtiofs => ShowsOwn(k, i, VirtiofsType, m.source, m.readOnly && !ExportsWritable(mounts, m))
    case Tmpfs => ShowsOwn(k, i, TmpfsType, "tmpfs", m.readOnly && !ExportsWritable(mounts, m))
    case Bind => ShowsSource(k, pick, i, m.source)
    case OtherKind => false
  }

  /** The same of a shape. */
  predicate ShapeShows(s: seq<Shape>, k: Kernel, pick: seq<nat>, i: nat)
    requires k.Valid() && 1 <= i <= |s| && i < |k.mnts|
  {
    k.mnts[i].target == s[i - 1].target &&
    if s[i - 1].bind then Resolved(s, pick, i) && ShapeBound(s, k, pick, i)
    else ShowsOwn(k, i, s[i - 1].fs, s[i - 1].source, s[i - 1].readOnly && !Stages(s, i - 1))
  }

  predicate ShapeBound(s: seq<Shape>, k: Kernel, pick: seq<nat>, i: nat)
    requires 1 <= i <= |s| && i < |k.mnts| && Resolved(s, pick, i)
  {
    var from := k.mnts[pick[i]];
    k.mnts[i].sb == from.sb && k.mnts[i].dir == from.dir + Below(s[i - 1].source, from.target)
  }

  lemma ShapeStillShows(s: seq<Shape>, k: Kernel, k': Kernel, pick: seq<nat>, i: nat)
    requires k.Valid() && k'.Valid() && k.mnts <= k'.mnts && k.supers <= k'.supers
    requires 1 <= i <= |s| && i < |k.mnts| && ShapeShows(s, k, pick, i)
    ensures ShapeShows(s, k', pick, i)
  {
  }

  lemma NewShapeShows(s: seq<Shape>, n: nat, k: Kernel, pick: seq<nat>)
    requires 1 <= n <= |s| && k.Valid() && |k.mnts| == n && AfterOne(s, n, k, pick).Running?
    ensures ShapeShows(s, AfterOne(s, n, k, pick).k, pick, n)
  {
  }

  lemma {:induction false} BootShows(s: seq<Shape>, n: nat, pick: seq<nat>, i: nat)
    requires 1 <= i <= n <= |s| && Boot(s, n, pick).Running?
    ensures ShapeShows(s, Boot(s, n, pick).k, pick, i)
  {
    if i == n {
      NewShapeShows(s, n, Boot(s, n - 1, pick).k, pick);
    } else {
      BootShows(s, n - 1, pick, i);
      ShapeStillShows(s, Boot(s, n - 1, pick).k, Boot(s, n, pick).k, pick, i);
    }
  }

  lemma StagesIs(mounts: seq<GuestMount>, i: nat)
    requires i < |mounts| && !mounts[i].IsBind()
    ensures Stages(Shapes(mounts), i) <==> ExportsWritable(mounts, mounts[i])
  {
    var s := Shapes(mounts);
    forall j | 0 <= j < |mounts|
      ensures j != i && s[j].WritableBind() && i in s[j].under <==>
              mounts[j].Mount? && mounts[j].kind == Bind && !mounts[j].readOnly &&
              Under(mounts[j].source, mounts[i].Target())
    {
      UnderIs(mounts, j, i);
    }
  }

  lemma OwnShows(mounts: seq<GuestMount>, k: Kernel, pick: seq<nat>, i: nat)
    requires k.Valid() && 1 <= i <= |mounts| && i < |k.mnts| && mounts[i - 1].Plannable() && !mounts[i - 1].IsBind()
    requires ShapeShows(Shapes(mounts), k, pick, i)
    ensures Shows(mounts, k, pick, i)
  {
    assert Shapes(mounts)[i - 1] == ShapeOf(mounts, i - 1);
    StagesIs(mounts, i - 1);
  }

  lemma BindShows(mounts: seq<GuestMount>, k: Kernel, pick: seq<nat>, i: nat)
    requires k.Valid() && 1 <= i <= |mounts| && i < |k.mnts| && mounts[i - 1].Plannable() && mounts[i - 1].IsBind()
    requires ShapeShows(Shapes(mounts), k, pick, i) && InPlace(Shapes(mounts), k, |mounts|)
    ensures Shows(mounts, k, pick, i)
  {
    assert Shapes(mounts)[i - 1] == ShapeOf(mounts, i - 1);
    if pick[i] > 0 {
      UnderIs(mounts, i - 1, pick[i] - 1);
    }
  }

  /** However the sources resolve, a completed boot shows at every target what its entry asks
      for: a share or a tmpfs of the entry's own, whole, its superblock read-only exactly when the
      entry is and no writable bind is made out of it, and at a bind the directory its source names
      in the filesystem its source resolved to. */
  lemma PlanShows(mounts: seq<GuestMount>, pick: seq<nat>)
    requires Plannable(mounts)
    ensures
      var o := Run(BOOT, pick, Flatten(Plan(mounts)));
      o.Running? ==> |o.k.mnts| == |mounts| + 1 && forall i :: 1 <= i <= |mounts| ==> Shows(mounts, o.k, pick, i)
  {
    WholePlanBoots(mounts, pick);
    var s := Shapes(mounts);
    var o := Boot(s, |mounts|, pick);
    if o.Running? {
      BootInPlace(s, |mounts|, pick);
      forall i | 1 <= i <= |mounts|
        ensures Shows(mounts, o.k, pick, i)
      {
        BootShows(s, |mounts|, pick, i);
        if mounts[i - 1].IsBind() {
          BindShows(mounts, o.k, pick, i);
        } else {
          OwnShows(mounts, o.k, pick, i);
        }
      }
    }
  }

  /** The mount whose filesystem mount i shows: the end of its chain of sources. */
  function Origin(mounts: seq<GuestMount>, pick: seq<nat>, i: nat): (o: nat)
    requires i <= |mounts|
    ensures o <= i
  {
    if i == 0 || !mounts[i - 1].IsBind() then i
    else if i < |pick| && pick[i] < i then Origin(mounts, pick, pick[i]) else 0
  }

  lemma {:induction false} OriginIs(mounts: seq<GuestMount>, k: Kernel, pick: seq<nat>, i: nat)
    requires k.Valid() && |k.mnts| == |mounts| + 1 && i <= |mounts|
    requires forall j :: 1 <= j <= |mounts| ==> Shows(mounts, k, pick, j)
    ensures
      var o := Origin(mounts, pick, i);
      k.mnts[o].sb == k.mnts[i].sb && (o == 0 || OnItsOwn(k, o))
    decreases i
  {
    if i > 0 {
      assert Shows(mounts, k, pick, i);
      if mounts[i - 1].IsBind() {
        OriginIs(mounts, k, pick, pick[i]);
      }
    }
  }

  /** Two mount points show one filesystem exactly when their chains of sources end at the same
      mount: no two entries are given each other's contents. */
  lemma SharedExactly(mounts: seq<GuestMount>, pick: seq<nat>, i: nat, j: nat)
    requires Plannable(mounts) && i <= |mounts| && j <= |mounts| && Run(BOOT, pick, Flatten(Plan(mounts))).Running?
    ensures
      var k := Run(BOOT, pick, Flatten(Plan(mounts))).k;
      |k.mnts| == |mounts| + 1 &&
      (k.mnts[i].sb == k.mnts[j].sb <==> Origin(mounts, pick, i) == Origin(mounts, pick, j))
  {
    PlanShows(mounts, pick);
    var k := Run(BOOT, pick, Flatten(Plan(mounts))).k;
    OriginIs(mounts, k, pick, i);
    OriginIs(mounts, k, pick, j);
  }
}
