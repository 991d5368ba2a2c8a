/** Slash-separated path text, as the guest planner (Go's path.Clean) and the rebase shim
    both read it: components, and the lexical normal form of a rooted path. */
module Paths {

  /** Length of the leading component: everything before the first slash. */
  function ComponentLen(p: string): (k: nat)
    ensures k <= |p|
    ensures forall i :: 0 <= i < k ==> p[i] != '/'
    ensures k < |p| ==> p[k] == '/'
  {
    if p == "" || p[0] == '/' then 0 else 1 + ComponentLen(p[1..])
  }

  /** The non-empty components of a path, in order. */
  function Components(p: string): seq<string>
    decreases |p|
  {
    if p == "" then []
    else if p[0] == '/' then Components(p[1..])
    else
      var k := ComponentLen(p);
      [p[..k]] + Components(p[k..])
  }

  /** One component applied to a rooted path: "." stays, ".." goes up and stops at the root. */
  function Walk(at: seq<string>, c: string): seq<string> {
    if c == "." then at
    else if c == ".." then (if at == [] then [] else at[..|at| - 1])
    else at + [c]
  }

  function WalkAll(at: seq<string>, cs: seq<string>): seq<string>
    decreases |cs|
  {
    if cs == [] then at else WalkAll(Walk(at, cs[0]), cs[1..])
  }

  /** The lexical normal form of a rooted path, as its remaining components. */
  function Norm(p: string): seq<string> {
    WalkAll([], Components(p))
  }

  function Render(cs: seq<string>): string {
    if cs == [] then "" else "/" + cs[0] + Render(cs[1..])
  }

  /** path.Clean of a rooted path. */
  function Clean(p: string): string {
    if Norm(p) == [] then "/" else Render(Norm(p))
  }

  predicate HasPrefix(s: string, p: string) {
    |p| <= |s| && s[..|p|] == p
  }

  /** True when walking cs from a directory with `depth` levels to spare goes above them. */
  predicate Climbs(cs: seq<string>, depth: nat)
    decreases |cs|
  {
    cs != [] &&
    if cs[0] == "." then Climbs(cs[1..], depth)
    else if cs[0] == ".." then depth == 0 || Climbs(cs[1..], depth - 1)
    else Climbs(cs[1..], depth + 1)
  }

  /** Components distribute over concatenation when the seam is a component boundary. */
  lemma {:induction false} ComponentsConcat(a: string, b: string)
    requires b == "" || b[0] == '/' || a == "" || a[|a| - 1] == '/'
    ensures Components(a + b) == Components(a) + Components(b)
    decreases |a|
  {
    if a == "" {
      assert a + b == b;
    } else if a[0] == '/' {
      assert (a + b)[1..] == a[1..] + b;
      ComponentsConcat(a[1..], b);
    } else {
      var k := ComponentLen(a);
      ComponentLenConcat(a, b);
      assert (a + b)[..k] == a[..k];
      assert (a + b)[k..] == a[k..] + b;
      ComponentsConcat(a[k..], b);
    }
  }

  lemma {:induction false} ComponentLenConcat(a: string, b: string)
    requires b == "" || b[0] == '/' || a == "" || a[|a| - 1] == '/'
    requires a != "" || b == "" || b[0] == '/'
    ensures ComponentLen(a + b) == ComponentLen(a)
  {
    if a == "" {
      assert a + b == b;
    } else if a[0] != '/' {
      assert (a + b)[1..] == a[1..] + b;
      if |a| == 1 {
        assert a[1..] + b == b;
        assert b == "" || b[0] == '/';
      } else {
        ComponentLenConcat(a[1..], b);
      }
    }
  }

  lemma {:induction false} WalkAllConcat(at: seq<string>, a: seq<string>, b: seq<string>)
    ensures WalkAll(at, a + b) == WalkAll(WalkAll(at, a), b)
    decreases |a|
  {
    if a == [] {
      assert a + b == b;
    } else {
      assert (a + b)[1..] == a[1..] + b;
      WalkAllConcat(Walk(at, a[0]), a[1..], b);
    }
  }

  /** A walk that never climbs above its start depends on the start only as a prefix. */
  lemma {:induction false} WalkUnder(base: seq<string>, at: seq<string>, cs: seq<string>)
    requires !Climbs(cs, |at|)
    ensures WalkAll(base + at, cs) == base + WalkAll(at, cs)
    decreases |cs|
  {
    if cs != [] {
      assert Walk(base + at, cs[0]) == base + Walk(at, cs[0]);
      WalkUnder(base, Walk(at, cs[0]), cs[1..]);
    }
  }

  lemma {:induction false} ClimbsConcat(a: seq<string>, b: seq<string>, depth: nat)
    requires !Climbs(a, depth)
    ensures Climbs(a + b, depth) <==> Climbs(b, Rise(a, depth))
    decreases |a|
  {
    if a == [] {
      assert a + b == b;
    } else {
      assert (a + b)[1..] == a[1..] + b;
      ClimbsConcat(a[1..], b, Step(depth, a[0]));
    }
  }

  /** The depth after one component that does not climb. */
  function Step(depth: nat, c: string): nat
    requires c == ".." ==> depth > 0
  {
    if c == "." then depth else if c == ".." then depth - 1 else depth + 1
  }

  /** The depth after walking cs from `depth` without climbing. */
  function Rise(cs: seq<string>, depth: nat): nat
    requires !Climbs(cs, depth)
    decreases |cs|
  {
    if cs == [] then depth else Rise(cs[1..], Step(depth, cs[0]))
  }

  /** The component starting at i is empty, "." or "..". */
  predicate DotOrEmptyAt(p: string, i: nat)
    requires i <= |p|
  {
    i == |p| || p[i] == '/' ||
    (p[i] == '.' && (i + 1 == |p| || p[i + 1] == '/' ||
                     (p[i + 1] == '.' && (i + 2 == |p| || p[i + 2] == '/'))))
  }

  /** A rooted path in clean form, read off its characters. */
  predicate IsClean(p: string) {
    |p| > 0 && p[0] == '/' &&
    (|p| == 1 || forall i :: 0 <= i < |p| && p[i] == '/' ==> !DotOrEmptyAt(p, i + 1))
  }

  predicate Proper(c: string) {
    c != "" && c != "." && c != ".." && '/' !in c
  }

  lemma {:induction false} ComponentsNoSlash(p: string)
    ensures forall c :: c in Components(p) ==> c != "" && '/' !in c
    decreases |p|
  {
    if p == "" {
    } else if p[0] == '/' {
      ComponentsNoSlash(p[1..]);
    } else {
      ComponentsNoSlash(p[ComponentLen(p)..]);
    }
  }

  lemma {:induction false} WalkKeepsProper(at: seq<string>, cs: seq<string>)
    requires forall c :: c in at ==> Proper(c)
    requires forall c :: c in cs ==> c != "" && '/' !in c
    ensures forall c :: c in WalkAll(at, cs) ==> Proper(c)
    decreases |cs|
  {
    if cs != [] {
      assert cs[0] in cs && forall c :: c in cs[1..] ==> c in cs;
      WalkKeepsProper(Walk(at, cs[0]), cs[1..]);
    }
  }

  /** A component in front of a clean path, or of nothing. */
  lemma CleanBehind(c: string, rest: string)
    requires Proper(c) && (rest == "" || (IsClean(rest) && |rest| > 1))
    ensures IsClean("/" + c + rest)
  {
    var p, n := "/" + c + rest, |c| + 1;
    assert forall i :: 1 <= i < n ==> p[i] == c[i - 1] && p[i] != '/';
    assert forall j :: n <= j < |p| ==> p[j] == rest[j - n];
    forall i | 0 <= i < |p| && p[i] == '/'
      ensures !DotOrEmptyAt(p, i + 1)
    {
      if i == 0 {
        assert p[1] == c[0];
        assert |c| == 1 ==> c == [c[0]];
        assert |c| == 2 ==> c == [c[0], c[1]];
      } else {
        assert !DotOrEmptyAt(rest, i - n + 1);
      }
    }
  }

  /** A rendered list of proper components is clean. */
  lemma {:induction false} RenderIsClean(cs: seq<string>)
    requires cs != [] && forall c :: c in cs ==> Proper(c)
    ensures IsClean(Render(cs)) && |Render(cs)| > 1
  {
    if |cs| > 1 {
      RenderIsClean(cs[1..]);
    }
    assert cs[0] in cs;
    CleanBehind(cs[0], Render(cs[1..]));
  }

  /** What follows a slash of a clean path is clean, slash included. */
  lemma CleanRest(p: string, k: nat)
    requires IsClean(p) && 0 < k < |p| && p[k] == '/'
    ensures IsClean(p[k..]) && |p[k..]| > 1
  {
    var rest := p[k..];
    assert !DotOrEmptyAt(p, k + 1);
    forall i | 0 <= i < |rest| && rest[i] == '/'
      ensures !DotOrEmptyAt(rest, i + 1)
    {
      assert p[k + i] == '/';
      assert !DotOrEmptyAt(p, k + i + 1);
    }
  }

  lemma CleanFirst(p: string)
    requires IsClean(p) && |p| > 1
    ensures Proper(p[1..][..ComponentLen(p[1..])])
  {
    var q := p[1..];
    assert !DotOrEmptyAt(p, 1);
    assert q[0] == p[1];
    assert forall i :: 0 <= i < ComponentLen(q) ==> q[i] == p[i + 1];
  }

  /** A clean path, cut after its first component. */
  lemma CleanSplits(p: string)
    requires IsClean(p) && |p| > 1
    ensures
      var c := p[1..][..ComponentLen(p[1..])];
      var rest := p[1 + |c|..];
      Proper(c) && p == "/" + c + rest && Components(p) == [c] + Components(rest) &&
      (rest == "" || (IsClean(rest) && |rest| > 1))
  {
    var q := p[1..];
    var k := ComponentLen(q);
    CleanFirst(p);
    assert q[k..] == p[1 + k..];
    if k < |q| {
      CleanRest(p, 1 + k);
    }
  }

  lemma {:induction false} CleanComponents(p: string)
    requires IsClean(p) && |p| > 1
    ensures Components(p) != [] && (forall c :: c in Components(p) ==> Proper(c)) && Render(Components(p)) == p
    decreases |p|
  {
    CleanSplits(p);
    var c := p[1..][..ComponentLen(p[1..])];
    var rest := p[1 + |c|..];
    assert Components(p)[1..] == Components(rest);
    if rest != "" {
      CleanComponents(rest);
    }
  }

  lemma {:induction false} WalkProper(at: seq<string>, cs: seq<string>)
    requires forall c :: c in cs ==> Proper(c)
    ensures WalkAll(at, cs) == at + cs
    decreases |cs|
  {
    if cs != [] {
      assert cs[0] in cs;
      WalkProper(Walk(at, cs[0]), cs[1..]);
      assert at + [cs[0]] + cs[1..] == at + cs;
    }
  }

  /** The character reading of cleanliness is exactly path.Clean's fixpoint. */
  lemma IsCleanExactly(p: string)
    requires |p| > 0 && p[0] == '/'
    ensures IsClean(p) <==> Clean(p) == p
  {
    if IsClean(p) && |p| > 1 {
      CleanComponents(p);
      WalkProper([], Components(p));
      assert [] + Components(p) == Components(p);
    } else if |p| == 1 {
      assert p == "/";
      assert p[1..] == "";
    } else if Clean(p) == p {
      ComponentsNoSlash(p);
      WalkKeepsProper([], Components(p));
      RenderIsClean(Norm(p));
    }
  }
}
