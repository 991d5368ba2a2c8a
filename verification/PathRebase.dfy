/** The DYLD path-rebase shim: an absolute path under a configured mount is moved under the pod's
    rootfs; every other path passes through. */
module PathRebase {
  import opened Paths

  /** PATH_MAX, the size of every path buffer. */
  const MAX_PATH := 1024

  datatype Config = Config(rootfs: string, mounts: seq<string>) {
    /** What k3sm_pathcfg_init leaves when it enables the shim. */
    predicate Valid() {
      |rootfs| > 1 && rootfs[0] == '/' && rootfs[|rootfs| - 1] != '/' && |rootfs| < MAX_PATH &&
      forall i :: 0 <= i < |mounts| ==> ValidMount(mounts[i])
    }
  }

  predicate ValidMount(m: string) {
    |m| > 0 && m[0] == '/' && (|m| == 1 || m[|m| - 1] != '/')
  }

  /** At the prefix, or below it past a slash: never a sibling that merely starts the same. */
  predicate AtOrUnder(path: string, prefix: string) {
    HasPrefix(path, prefix) && (|path| == |prefix| || path[|prefix|] == '/')
  }

  /** What a walk of cs adds to its depth. */
  function NetDepth(cs: seq<string>): int {
    if cs == [] then 0
    else NetDepth(cs[..|cs| - 1]) +
         var c := cs[|cs| - 1];
         if c == ".." then -1 else if c == "." then 0 else 1
  }

  lemma {:induction false} NetDepthCons(c: string, cs: seq<string>)
    ensures NetDepth([c] + cs) == (if c == ".." then -1 else if c == "." then 0 else 1) + NetDepth(cs)
    decreases |cs|
  {
    if cs == [] {
      assert [c] + cs == [c] && [c][..0] == [];
    } else {
      var n := |cs| - 1;
      NetDepthCons(c, cs[..n]);
      assert ([c] + cs)[..|cs|] == [c] + cs[..n];
    }
  }

  function Delta(c: string): int { if c == ".." then -1 else if c == "." then 0 else 1 }

  lemma NetDepthFirst(cs: seq<string>, n: nat)
    requires 1 <= n <= |cs|
    ensures NetDepth(cs[..n]) == Delta(cs[0]) + NetDepth(cs[1..][..n - 1])
  {
    assert cs[..n] == [cs[0]] + cs[1..][..n - 1];
    NetDepthCons(cs[0], cs[1..][..n - 1]);
  }

  lemma {:induction false} ClimbHasLowPoint(cs: seq<string>, depth: nat) returns (n: nat)
    requires Climbs(cs, depth)
    ensures n <= |cs| && depth + NetDepth(cs[..n]) < 0
    decreases |cs|
  {
    if depth + Delta(cs[0]) < 0 {
      NetDepthFirst(cs, 1);
      assert cs[1..][..0] == [];
      return 1;
    }
    var m := ClimbHasLowPoint(cs[1..], depth + Delta(cs[0]));
    NetDepthFirst(cs, m + 1);
    n := m + 1;
  }

  lemma {:induction false} LowPointClimbs(cs: seq<string>, depth: nat, n: nat)
    requires n <= |cs| && depth + NetDepth(cs[..n]) < 0
    ensures Climbs(cs, depth)
    decreases |cs|
  {
    if n > 0 {
      NetDepthFirst(cs, n);
      if depth + Delta(cs[0]) >= 0 {
        LowPointClimbs(cs[1..], depth + Delta(cs[0]), n - 1);
      }
    }
  }

  /** A walk climbs above its start exactly when some initial part of it ends above. */
  lemma ClimbsExactly(cs: seq<string>, depth: nat)
    ensures Climbs(cs, depth) <==> exists n :: 0 <= n <= |cs| && depth + NetDepth(cs[..n]) < 0
  {
    if Climbs(cs, depth) {
      var n := ClimbHasLowPoint(cs, depth);
    }
    if n :| 0 <= n <= |cs| && depth + NetDepth(cs[..n]) < 0 {
      LowPointClimbs(cs, depth, n);
    }
  }

  /** Step over slashes. */
  method SkipSlashes(rest: string, from: nat) returns (c: nat)
    requires from <= |rest|
    ensures from <= c <= |rest| && (c < |rest| ==> rest[c] != '/') && (from < |rest| && rest[from] == '/' ==> from < c)
    ensures Components(rest[c..]) == Components(rest[from..])
  {
    c := from;
    while c < |rest| && rest[c] == '/'
      invariant from <= c <= |rest| && Components(rest[c..]) == Components(rest[from..])
    {
      assert rest[c..][1..] == rest[c + 1..];
      c := c + 1;
    }
  }

  /** Step over one component. */
  method ComponentEnd(rest: string, c: nat) returns (e: nat)
    requires c <= |rest| && (c < |rest| ==> rest[c] != '/')
    ensures c <= e <= |rest| && (c < |rest| ==> c < e)
    ensures c < e ==> Components(rest[c..]) == [rest[c..e]] + Components(rest[e..])
    ensures c == e ==> Components(rest[c..]) == []
  {
    e := c;
    while e < |rest| && rest[e] != '/'
      invariant c <= e <= |rest| && forall i :: c <= i < e ==> rest[i] != '/'
    {
      e := e + 1;
    }
    if c < e {
      FirstComponent(rest, c, e);
    } else {
      assert rest[c..] == "";
    }
  }

  /** How a component changes the depth: up for "..", none for ".", down for any other. */
  method DepthChange(rest: string, c: nat, e: nat) returns (d: int)
    requires c <= e <= |rest|
    ensures d == Delta(rest[c..e])
  {
    if e - c == 2 && rest[c] == '.' && rest[c + 1] == '.' {
      assert rest[c..e] == "..";
      return -1;
    }
    if e - c == 1 && rest[c] == '.' {
      assert rest[c..e] == ".";
      return 0;
    }
    return 1;
  }

  lemma ClimbsByDelta(cs: seq<string>, depth: nat, d: int)
    requires cs != [] && d == Delta(cs[0])
    ensures Climbs(cs, depth) <==> depth + d < 0 || Climbs(cs[1..], depth + d)
  {
  }

  /** k3sm_escapes: the pointer walk over the rest of a path after a mount prefix. */
  method Escapes(rest: string) returns (r: bool)
    ensures r == Climbs(Components(rest), 0)
  {
    var depth: nat := 0;
    var at := 0;
    ghost var all, todo := Components(rest), Components(rest);
    assert rest[0..] == rest;
    while at < |rest|
      invariant 0 <= at <= |rest| && todo == Components(rest[at..])
      invariant Climbs(all, 0) == Climbs(todo, depth)
    {
      var c := SkipSlashes(rest, at);
      var e := ComponentEnd(rest, c);
      if e == c {
        return false;
      }
      assert todo[0] == rest[c..e] && todo[1..] == Components(rest[e..]);
      var d := DepthChange(rest, c, e);
      ClimbsByDelta(todo, depth, d);
      if depth + d < 0 {
        return true;
      }
      depth := depth + d;
      at, todo := e, todo[1..];
    }
    assert rest[at..] == "";
    return false;
  }

  lemma FirstComponent(rest: string, c: nat, e: nat)
    requires c < e <= |rest| && (forall i :: c <= i < e ==> rest[i] != '/') && (e == |rest| || rest[e] == '/')
    ensures Components(rest[c..]) == [rest[c..e]] + Components(rest[e..])
  {
    var q := rest[c..];
    var k := ComponentLen(q);
    assert forall i :: 0 <= i < |q| ==> q[i] == rest[c + i];
    assert k == e - c;
    assert q[..k] == rest[c..e] && q[k..] == rest[e..];
  }

  /** Mount m catches path: at or under it, without climbing back out. */
  predicate Catches(m: string, path: string) {
    AtOrUnder(path, m) && !Climbs(Components(path[|m|..]), 0)
  }

  predicate Caught(cfg: Config, path: string) {
    exists i :: 0 <= i < |cfg.mounts| && Catches(cfg.mounts[i], path)
  }

  datatype Rebase = Unchanged | Rewritten(path: string) | TooLong

  /** What the rebase makes of a path, as a question about the set of mounts. */
  function RebaseOf(cfg: Config, path: string, strict: bool): Rebase {
    if path == "" || path[0] != '/' || AtOrUnder(path, cfg.rootfs) || !Caught(cfg, path) then Unchanged
    else if |cfg.rootfs| + |path| >= MAX_PATH then (if strict then TooLong else Unchanged)
    else Rewritten(cfg.rootfs + path)
  }

  /** path is the directory dir or something below it. */
  predicate Inside(path: string, dir: string) {
    path == dir || HasPrefix(path, dir + "/")
  }

  /** No initial part of the walk ends above where it started. */
  predicate StaysBelow(cs: seq<string>) {
    forall n :: 0 <= n <= |cs| ==> NetDepth(cs[..n]) >= 0
  }

  /** The paths the shim moves: absolute, not already in the rootfs, and in some mount with the
      rest of the path never climbing out of it. */
  predicate Belongs(cfg: Config, path: string) {
    |path| > 0 && path[0] == '/' && !Inside(path, cfg.rootfs) &&
    exists i :: 0 <= i < |cfg.mounts| && Inside(path, cfg.mounts[i]) &&
                StaysBelow(Components(path[|cfg.mounts[i]|..]))
  }

  lemma InsideIs(path: string, dir: string)
    ensures Inside(path, dir) <==> AtOrUnder(path, dir)
  {
    if AtOrUnder(path, dir) && |path| != |dir| {
      assert path[..|dir| + 1] == dir + "/";
    }
    if HasPrefix(path, dir + "/") {
      assert (dir + "/")[..|dir|] == dir && (dir + "/")[|dir|] == '/';
    }
  }

  lemma CatchesIs(m: string, path: string)
    ensures Catches(m, path) <==> Inside(path, m) && StaysBelow(Components(path[|m|..]))
  {
    InsideIs(path, m);
    if Inside(path, m) {
      ClimbsExactly(Components(path[|m|..]), 0);
    }
  }

  /** Exactly the paths that belong are moved under the rootfs. One that would not fit is refused
      when the caller is strict and otherwise left as it is. */
  lemma RebaseExactly(cfg: Config, path: string, strict: bool)
    ensures
      var r := RebaseOf(cfg, path, strict);
      var fits := |cfg.rootfs + path| < 1024;
      (r.Rewritten? <==> Belongs(cfg, path) && fits) && (r.TooLong? <==> Belongs(cfg, path) && !fits && strict) &&
      (r.Rewritten? ==> r.path == cfg.rootfs + path)
  {
    InsideIs(path, cfg.rootfs);
    forall i | 0 <= i < |cfg.mounts|
      ensures Catches(cfg.mounts[i], path) <==>
              Inside(path, cfg.mounts[i]) && StaysBelow(Components(path[|cfg.mounts[i]|..]))
    {
      CatchesIs(cfg.mounts[i], path);
    }
  }

  datatype Returned = ThePath | TheBuffer | Null

  /** k3sm_rebase_mode: the mount scan and the write into the caller's buffer. The buffer holds a
      NUL-terminated rewritten path when it is returned, and is untouched otherwise. */
  method RebaseMode(cfg: Config, path: string, buf: array<char>, strict: bool) returns (r: Returned)
    requires cfg.Valid() && buf.Length >= MAX_PATH
    modifies buf
    ensures r == match RebaseOf(cfg, path, strict)
                 case Unchanged => ThePath
                 case Rewritten(_) => TheBuffer
                 case TooLong => Null
    ensures r == TheBuffer ==>
              var q := cfg.rootfs + path;
              |q| < buf.Length && buf[..|q|] == q && buf[|q|] == '\0'
    ensures r != TheBuffer ==> buf[..] == old(buf[..])
  {
    if path == "" || path[0] != '/' {
      return ThePath;
    }
    if AtOrUnder(path, cfg.rootfs) {
      return ThePath;
    }
    for i := 0 to |cfg.mounts|
      invariant forall j :: 0 <= j < i ==> !Catches(cfg.mounts[j], path)
      invariant buf[..] == old(buf[..])
    {
      var m := cfg.mounts[i];
      if !AtOrUnder(path, m) {
        continue;
      }
      var escapes := Escapes(path[|m|..]);
      if escapes {
        continue;
      }
      assert Catches(m, path);
      if |cfg.rootfs| + |path| >= MAX_PATH {
        return if strict then Null else ThePath;
      }
      WriteJoined(buf, cfg.rootfs, path);
      return TheBuffer;
    }
    return ThePath;
  }

  /** memcpy of the rootfs, then strcpy of the path after it. */
  method WriteJoined(buf: array<char>, a: string, b: string)
    requires |a| + |b| < buf.Length
    modifies buf
    ensures buf[..|a| + |b|] == a + b && buf[|a| + |b|] == '\0'
  {
    forall i | 0 <= i < |a| {
      buf[i] := a[i];
    }
    forall i | 0 <= i < |b| {
      buf[|a| + i] := b[i];
    }
    buf[|a| + |b|] := '\0';
  }

  /** Re-entering the rebase with its own result leaves it alone. */
  lemma RebaseIsIdempotent(cfg: Config, path: string, strict: bool, again: bool)
    requires cfg.Valid() && RebaseOf(cfg, path, strict).Rewritten?
    ensures RebaseOf(cfg, RebaseOf(cfg, path, strict).path, again) == Unchanged
  {
    var q := RebaseOf(cfg, path, strict).path;
    assert q[..|cfg.rootfs|] == cfg.rootfs && q[|cfg.rootfs|] == path[0];
  }

  /** The order and repetition of mounts do not matter. */
  lemma MountOrderDoesNotMatter(a: Config, b: Config, path: string, strict: bool)
    requires a.rootfs == b.rootfs && (forall m :: m in a.mounts <==> m in b.mounts)
    ensures RebaseOf(a, path, strict) == RebaseOf(b, path, strict)
  {
    CaughtBySet(a, b, path);
    CaughtBySet(b, a, path);
  }

  lemma CaughtBySet(a: Config, b: Config, path: string)
    requires forall m :: m in a.mounts ==> m in b.mounts
    ensures Caught(a, path) ==> Caught(b, path)
  {
    if Caught(a, path) {
      var i :| 0 <= i < |a.mounts| && Catches(a.mounts[i], path);
      assert a.mounts[i] in b.mounts;
      var j :| 0 <= j < |b.mounts| && b.mounts[j] == a.mounts[i];
      assert Catches(b.mounts[j], path);
    }
  }

  /** A caught path is its mount followed by a part of its own. */
  lemma CaughtSplits(m: string, path: string)
    requires ValidMount(m) && Catches(m, path)
    ensures Components(path) == Components(m) + Components(path[|m|..])
  {
    assert path == m + path[|m|..];
    ComponentsConcat(m, path[|m|..]);
  }

  /** A deeper start has more room before it is climbed out of. */
  lemma {:induction false} DeeperClimbsLess(cs: seq<string>, a: nat, b: nat)
    requires a <= b && Climbs(cs, b)
    ensures Climbs(cs, a)
    decreases |cs|
  {
    if cs[0] == "." {
      DeeperClimbsLess(cs[1..], a, b);
    } else if cs[0] != ".." {
      DeeperClimbsLess(cs[1..], a + 1, b + 1);
    } else if a > 0 && b > 0 {
      DeeperClimbsLess(cs[1..], a - 1, b - 1);
    }
  }

  /** If the mount itself does not climb, neither does a path it catches. */
  lemma CaughtDoesNotClimb(m: string, path: string)
    requires ValidMount(m) && Catches(m, path) && !Climbs(Components(m), 0)
    ensures !Climbs(Components(path), 0)
  {
    CaughtSplits(m, path);
    ClimbsConcat(Components(m), Components(path[|m|..]), 0);
    if Climbs(Components(path[|m|..]), Rise(Components(m), 0)) {
      DeeperClimbsLess(Components(path[|m|..]), 0, Rise(Components(m), 0));
    }
  }

  /** A path a mount catches lies lexically inside that mount. */
  lemma CaughtLiesInMount(m: string, path: string)
    requires ValidMount(m) && Catches(m, path)
    ensures Norm(m) <= Norm(path)
  {
    var rest := Components(path[|m|..]);
    CaughtSplits(m, path);
    WalkAllConcat([], Components(m), rest);
    WalkUnder(Norm(m), [], rest);
    assert Norm(m) + [] == Norm(m);
  }

  lemma {:induction false} WalkIsShort(base: seq<string>, at: seq<string>, cs: seq<string>)
    ensures |WalkAll(base + at, cs)| <= |base| + |WalkAll(at, cs)|
    decreases |cs|
  {
    if cs != [] {
      var c := cs[0];
      if c == ".." && at == [] {
        if base != [] {
          var up := base[..|base| - 1];
          assert Walk(base + at, c) == up + [];
          WalkIsShort(up, [], cs[1..]);
        } else {
          assert base + at == [];
          assert Walk([], c) == [] + [];
          WalkIsShort([], [], cs[1..]);
        }
      } else {
        assert Walk(base + at, c) == base + Walk(at, c);
        WalkIsShort(base, Walk(at, c), cs[1..]);
      }
    }
  }

  /** A walk that climbs out of its start eats into whatever lies above. */
  lemma {:induction false} ClimbEatsBase(base: seq<string>, at: seq<string>, cs: seq<string>)
    requires base != [] && Climbs(cs, |at|)
    ensures |WalkAll(base + at, cs)| < |base| + |WalkAll(at, cs)|
    decreases |cs|
  {
    var c := cs[0];
    if c == ".." && at == [] {
      var up := base[..|base| - 1];
      assert Walk(base + at, c) == up + [];
      WalkIsShort(up, [], cs[1..]);
    } else {
      assert Walk(base + at, c) == base + Walk(at, c);
      ClimbEatsBase(base, Walk(at, c), cs[1..]);
    }
  }

  /** The lexical meaning of a rewritten path: the rootfs, then the path, each in normal form.
      This holds exactly when the path does not climb above the root, or there is nothing above
      it to lose. */
  lemma RewriteKeepsMeaningExactly(cfg: Config, path: string, strict: bool)
    requires cfg.Valid() && RebaseOf(cfg, path, strict).Rewritten?
    ensures Norm(RebaseOf(cfg, path, strict).path) == Norm(cfg.rootfs) + Norm(path)
            <==> !Climbs(Components(path), 0) || Norm(cfg.rootfs) == []
  {
    var cs := Components(path);
    ComponentsConcat(cfg.rootfs, path);
    WalkAllConcat([], Components(cfg.rootfs), cs);
    var base := Norm(cfg.rootfs);
    assert base + [] == base;
    if !Climbs(cs, 0) {
      WalkUnder(base, [], cs);
    } else if base != [] {
      ClimbEatsBase(base, [], cs);
    } else {
      assert [] + Norm(path) == Norm(path);
    }
  }

  /** The failing side is real: a mount point that climbs is accepted, and a path it catches is
      rewritten to one outside the rootfs. */
  lemma ClimbingMountEscapes(strict: bool)
    ensures
      var cfg := Config("/r", ["/../a"]);
      cfg.Valid() && RebaseOf(cfg, "/../a", strict) == Rewritten("/r" + "/../a") &&
      Climbs(Components("/../a"), 0) && !(Norm("/r") <= Norm("/r" + "/../a"))
  {
    var cfg := Config("/r", ["/../a"]);
    ClimbingComponents();
    CatchesItself("/../a");
    assert Catches(cfg.mounts[0], "/../a");
    ClimbedNorm();
  }

  lemma ClimbedNorm()
    ensures Norm("/r") == ["r"] && Norm("/r" + "/../a") == ["a"] && !(Norm("/r") <= Norm("/r" + "/../a"))
  {
    ClimbingComponents();
    OverTheRootfs();
    ComponentsConcat("/r", "/../a");
    WalkAllConcat([], ["r"], ["..", "a"]);
    assert "r"[0] != "a"[0];
  }

  lemma CatchesItself(m: string)
    ensures Catches(m, m)
  {
    assert m[|m|..] == "";
  }

  lemma ClimbingComponents()
    ensures Components("/../a") == ["..", "a"] && Climbs(["..", "a"], 0)
  {
    FirstComponent("/../a", 1, 3);
    FirstComponent("/../a", 4, 5);
    assert "/../a"[1..3] == ".." && "/../a"[4..5] == "a";
    assert "/../a"[3..][1..] == "/../a"[4..] && "/../a"[5..] == "";
  }

  lemma OverTheRootfs()
    ensures Components("/r") == ["r"] && WalkAll([], ["r"]) == ["r"] && WalkAll(["r"], ["..", "a"]) == ["a"]
  {
    FirstComponent("/r", 1, 2);
    assert "/r"[1..2] == "r" && "/r"[2..] == "";
  }

  /** For mounts that do not climb above the root themselves, every rewrite keeps its meaning. */
  lemma RewriteKeepsMeaning(cfg: Config, path: string, strict: bool)
    requires cfg.Valid() && RebaseOf(cfg, path, strict).Rewritten?
    requires forall i :: 0 <= i < |cfg.mounts| ==> !Climbs(Components(cfg.mounts[i]), 0)
    ensures Norm(RebaseOf(cfg, path, strict).path) == Norm(cfg.rootfs) + Norm(path)
  {
    var i :| 0 <= i < |cfg.mounts| && Catches(cfg.mounts[i], path);
    CaughtDoesNotClimb(cfg.mounts[i], path);
    RewriteKeepsMeaningExactly(cfg, path, strict);
  }

  lemma {:induction false} RenderConcat(a: seq<string>, b: seq<string>)
    ensures Render(a + b) == Render(a) + Render(b)
    decreases |a|
  {
    if a == [] {
      assert a + b == b;
    } else {
      RenderConcat(a[1..], b);
      assert (a + b)[1..] == a[1..] + b;
    }
  }

  lemma {:induction false} ProperDoesNotClimb(cs: seq<string>, depth: nat)
    requires forall c :: c in cs ==> Proper(c)
    ensures !Climbs(cs, depth)
    decreases |cs|
  {
    if cs != [] {
      assert cs[0] in cs && forall c :: c in cs[1..] ==> c in cs;
      ProperDoesNotClimb(cs[1..], depth + 1);
    }
  }

  /** Between clean paths a mount below the root catches exactly its own subtree. */
  lemma CleanMountCatchesItsSubtree(m: string, path: string)
    requires IsClean(m) && IsClean(path) && |m| > 1
    ensures Catches(m, path) <==> Norm(m) <= Norm(path)
  {
    CleanNorm(m);
    if |path| == 1 {
      RootNorm(path);
    } else {
      CleanNorm(path);
      if Norm(m) <= Norm(path) {
        BelowIsCaught(m, path, Norm(path)[|Norm(m)|..]);
      }
    }
    if Catches(m, path) {
      CaughtLiesInMount(m, path);
    }
  }

  lemma BelowIsCaught(m: string, path: string, below: seq<string>)
    requires IsClean(m) && |m| > 1 && IsClean(path) && |path| > 1 && Norm(path) == Norm(m) + below
    ensures Catches(m, path)
  {
    CleanNorm(m);
    CleanNorm(path);
    RenderConcat(Norm(m), below);
    assert path == m + Render(below) && path[|m|..] == Render(below);
    assert below != [] ==> Render(below)[0] == '/';
    ComponentsConcat(m, Render(below));
    assert (Norm(m) + below)[|Norm(m)|..] == below;
    assert (Components(m) + Components(Render(below)))[|Norm(m)|..] == Components(Render(below));
    assert forall c :: c in below ==> c in Norm(path);
    ProperDoesNotClimb(below, 0);
  }

  lemma RootNorm(path: string)
    requires |path| == 1 && path[0] == '/'
    ensures Norm(path) == []
  {
    assert path[1..] == "" && Components(path) == [];
  }

  lemma CleanNorm(p: string)
    requires IsClean(p) && |p| > 1
    ensures Norm(p) == Components(p) && Render(Norm(p)) == p && Norm(p) != []
    ensures forall c :: c in Norm(p) ==> Proper(c)
  {
    CleanComponents(p);
    WalkProper([], Components(p));
    assert [] + Components(p) == Components(p);
  }

  /** The mount "/" is the exception: of the clean paths it catches only the root itself. */
  lemma RootMountCatchesOnlyRoot(path: string)
    requires IsClean(path)
    ensures Catches("/", path) <==> path == "/"
  {
    if |path| > 1 {
      assert !DotOrEmptyAt(path, 1);
    } else {
      assert path == "/" && path[1..] == "";
    }
  }
}
