/** What the Linux kernel makes of the steps: a mount carries a read-only bit of its own and
    shares its superblock with every bind of it; a write needs both to be writable. */
module MountKernel {
  import opened MountPlan

  /** A mounted filesystem: its type, the device or tag it was made from, and whether it is
      read-only as a whole. */
  datatype Super = Super(fs: FSType, source: string, sealed: bool)

  /** A mount shows the directory `dir` of its superblock; "" is the filesystem's own root. */
  datatype Mnt = Mnt(target: string, sb: nat, dir: string, readOnly: bool)

  /** Mounts in creation order (index 0 is the writable guest root) and the superblocks. */
  datatype Kernel = Kernel(mnts: seq<Mnt>, supers: seq<Super>) {
    predicate Valid() {
      |mnts| > 0 && forall i :: 0 <= i < |mnts| ==> mnts[i].sb < |supers|
    }

    predicate Sealed(i: nat)
      requires Valid() && i < |mnts|
    {
      supers[mnts[i].sb].sealed
    }

    /** A write through mount i fails with EROFS. */
    predicate Effective(i: nat)
      requires Valid() && i < |mnts|
    {
      mnts[i].readOnly || Sealed(i)
    }
  }

  const BOOT := Kernel([Mnt("/", 0, "", false)], [Super(NoType, "", false)])

  datatype Outcome = Failed | Running(k: Kernel)

  /** The newest mount at exactly `target`, among the first n; -1 when there is none. */
  function Newest(mnts: seq<Mnt>, target: string, n: nat): (j: int)
    requires n <= |mnts|
    ensures -1 <= j < n
    ensures j >= 0 ==> mnts[j].target == target
    ensures forall i :: j < i < n ==> mnts[i].target != target
  {
    if n == 0 then -1 else if mnts[n - 1].target == target then n - 1 else Newest(mnts, target, n - 1)
  }

  /** `pick[n]` names the mount that the source of the bind creating mount n resolves to. It may
      be any earlier mount covering the source, or the guest root. */
  predicate Resolves(mnts: seq<Mnt>, pick: seq<nat>, source: string) {
    |mnts| < |pick| && pick[|mnts|] < |mnts| &&
    (pick[|mnts|] == 0 || Under(source, mnts[pick[|mnts|]].target))
  }

  /** Where a path at or under a mount's target lies below that mount's root. */
  function Below(path: string, target: string): string {
    if path == target || TrimmedLen(target) > |path| then "" else path[TrimmedLen(target)..]
  }

  function Exec(k: Kernel, pick: seq<nat>, s: MountStep): (o: Outcome)
    requires k.Valid()
    ensures o.Running? ==> o.k.Valid()
  {
    var ro := s.flags.readOnly;
    if s.flags.detach then Failed
    else if s.flags.remount then
      var j := Newest(k.mnts, s.target, |k.mnts|);
      // Remount together with bind changes that mount's own bit and never its superblock.
      if j < 0 || !s.flags.bind then Failed
      else Running(k.(mnts := k.mnts[j := k.mnts[j].(readOnly := ro)]))
    else if s.flags.bind then
      // A read-only flag beside bind is ignored: the new mount copies its source's bit.
      if !Resolves(k.mnts, pick, s.source) then Failed
      else
        var from := k.mnts[pick[|k.mnts|]];
        Running(k.(mnts := k.mnts + [Mnt(s.target, from.sb, from.dir + Below(s.source, from.target), from.readOnly)]))
    else if s.fsType.NoType? then Failed
    else
      Running(Kernel(k.mnts + [Mnt(s.target, |k.supers|, "", ro)], k.supers + [Super(s.fsType, s.source, ro)]))
  }

  function Run(k: Kernel, pick: seq<nat>, steps: seq<MountStep>): (o: Outcome)
    requires k.Valid()
    ensures o.Running? ==> o.k.Valid()
    decreases |steps|
  {
    if steps == [] then Running(k)
    else match Exec(k, pick, steps[0])
      case Failed => Failed
      case Running(k') => Run(k', pick, steps[1..])
  }

  lemma {:induction false} RunConcat(k: Kernel, pick: seq<nat>, a: seq<MountStep>, b: seq<MountStep>)
    requires k.Valid()
    ensures Run(k, pick, a + b) ==
            (match Run(k, pick, a) case Failed => Failed case Running(m) => Run(m, pick, b))
    decreases |a|
  {
    if a == [] {
      assert a + b == b;
    } else {
      assert (a + b)[1..] == a[1..] + b && (a + b)[0] == a[0];
      var o := Exec(k, pick, a[0]);
      if o.Running? {
        RunConcat(o.k, pick, a[1..], b);
      }
    }
  }
}
