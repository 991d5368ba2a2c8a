/** Composing the guest's initramfs: which members, in which order, and the archive they make. */
module Initramfs {
  import opened Bytes
  import opened Paths
  import opened NameOrder
  import opened Newc
  import opened MemberStream
  import opened Wrappers
  import opened NewcReader

  /** Path components joined with slashes, without a leading one. */
  function Rel(cs: seq<string>): string {
    if cs == [] then "" else if |cs| == 1 then cs[0] else cs[0] + "/" + Rel(cs[1..])
  }

  function Parts(p: string): seq<string> { Components(Clean(p)) }

  /** Every directory that must exist for p. */
  function DirsOf(p: string): set<string> {
    set j | 1 <= j <= |Parts(p)| :: Rel(Parts(p)[..j])
  }

  function Dirs(points: seq<string>): set<string> {
    if points == [] then {} else Dirs(points[..|points| - 1]) + DirsOf(points[|points| - 1])
  }

  /** ancestors: the directories of one path, shallowest first. */
  method Ancestors(p: string) returns (out: seq<string>)
    ensures |out| == |Parts(p)| && forall i :: 0 <= i < |out| ==> out[i] == Rel(Parts(p)[..i + 1])
  {
    var parts := Components(Clean(p));
    out := [];
    for i := 0 to |parts|
      invariant |out| == i && forall k :: 0 <= k < i ==> out[k] == Rel(parts[..k + 1])
    {
      out := out + [Rel(parts[..i + 1])];
    }
  }

  /** The names of the directories, in whatever order the map yields them. */
  method DirNames(points: seq<string>) returns (names: seq<string>)
    ensures Distinct(names) && forall x :: x in names <==> x in Dirs(points)
  {
    var dirs: set<string> := {};
    for i := 0 to |points|
      invariant dirs == Dirs(points[..i])
    {
      var above := Ancestors(points[i]);
      assert points[..i + 1][..i] == points[..i];
      dirs := dirs + set x | x in above;
      assert (set x | x in above) == DirsOf(points[i]) by {
        forall x | x in DirsOf(points[i])
          ensures x in above
        {
          var j :| 1 <= j <= |Parts(points[i])| && x == Rel(Parts(points[i])[..j]);
          assert above[j - 1] == x;
        }
      }
    }
    assert points[..|points|] == points;
    names := Listed(dirs);
  }

  method Listed(dirs: set<string>) returns (names: seq<string>)
    ensures Distinct(names) && forall x :: x in names <==> x in dirs
  {
    names := [];
    var todo := dirs;
    while todo != {}
      invariant todo <= dirs && Distinct(names) && forall x :: x in names <==> x in dirs - todo
      decreases |todo|
    {
      var d :| d in todo;
      assert d !in names;
      names := names + [d];
      todo := todo - {d};
    }
  }

  function ToBytes(s: string): (b: ByteString)
    ensures |b| == |s|
  {
    seq(|s|, i requires 0 <= i < |s| => ((s[i] as int) % 256) as Byte)
  }

  const FILE_MODE: nat := 0x81ED // 0o100755
  const DIR_MODE: nat := 0x41ED // 0o040755

  function EntryFor(n: string, init: ByteString): Entry {
    if n == "init" then Entry(ToBytes(n), FILE_MODE, 1, init) else Entry(ToBytes(n), DIR_MODE, 2, [])
  }

  function EntriesFor(names: seq<string>, init: ByteString): (es: seq<Entry>)
    ensures |es| == |names| && forall i :: 0 <= i < |names| ==> es[i] == EntryFor(names[i], init)
  {
    seq(|names|, i requires 0 <= i < |names| => EntryFor(names[i], init))
  }

  /** The names an archive for these mount points must hold. */
  ghost predicate NamesOf(points: seq<string>, names: seq<string>) {
    Sorted(names) && forall x :: x in names <==> x in Dirs(points) || x == "init"
  }

  /** composeEntries. */
  method ComposeEntries(points: seq<string>, init: ByteString) returns (es: seq<Entry>, names: seq<string>)
    requires "init" !in Dirs(points)
    ensures NamesOf(points, names) && es == EntriesFor(names, init)
  {
    var all := DirNames(points);
    all := all + ["init"];
    SortSorts(all);
    all := Sort(all);
    names := all;
    es := [];
    for i := 0 to |all|
      invariant es == EntriesFor(all, init)[..i]
    {
      if all[i] == "init" {
        es := es + [Entry(ToBytes(all[i]), FILE_MODE, 1, init)];
      } else {
        es := es + [Entry(ToBytes(all[i]), DIR_MODE, 2, [])];
      }
    }
  }

  /** Whatever order the directories came in, the members are the same. */
  lemma OrderDoesNotMatter(points: seq<string>, a: seq<string>, b: seq<string>)
    requires NamesOf(points, a) && NamesOf(points, b)
    ensures a == b
  {
    SortedIsUnique(a, b);
  }

  lemma {:induction false} RelCut(cs: seq<string>, q: string) returns (j: nat)
    requires forall c :: c in cs ==> '/' !in c
    requires |q| < |Rel(cs)| && q == Rel(cs)[..|q|] && Rel(cs)[|q|] == '/'
    ensures 1 <= j < |cs| && q == Rel(cs[..j])
  {
    var c := cs[0];
    assert c in cs && |cs| > 1 ==> Rel(cs) == c + "/" + Rel(cs[1..]);
    assert forall i :: 0 <= i < |c| ==> Rel(cs)[i] == c[i] != '/';
    if |q| == |c| {
      assert cs[..1] == [c];
      return 1;
    }
    var rest, q' := Rel(cs[1..]), q[|c| + 1..];
    assert rest == Rel(cs)[|c| + 1..];
    assert q' == rest[..|q'|];
    var j' := RelCut(cs[1..], q');
    assert cs[..j' + 1][1..] == cs[1..][..j'];
    assert q == c + "/" + q';
    return j' + 1;
  }

  lemma {:induction false} DirsClosed(points: seq<string>, n: string, q: string)
    requires n in Dirs(points) && |q| < |n| && q == n[..|q|] && n[|q|] == '/'
    ensures q in Dirs(points)
  {
    var p := points[|points| - 1];
    if n in DirsOf(p) {
      var k :| 1 <= k <= |Parts(p)| && n == Rel(Parts(p)[..k]);
      ComponentsNoSlash(Clean(p));
      var j := RelCut(Parts(p)[..k], q);
      assert Parts(p)[..k][..j] == Parts(p)[..j];
    } else {
      DirsClosed(points[..|points| - 1], n, q);
    }
  }

  /** Every directory above a member is a member before it. */
  lemma ParentsFirst(points: seq<string>, names: seq<string>, k: nat, q: string) returns (j: nat)
    requires NamesOf(points, names) && k < |names|
    requires |q| < |names[k]| && q == names[k][..|q|] && names[k][|q|] == '/'
    ensures j < k && names[j] == q
  {
    assert names[k] in names;
    assert names[k] != "init";
    DirsClosed(points, names[k], q);
    assert q in names;
    j :| 0 <= j < |names| && names[j] == q;
    PrefixLess(q, names[k]);
    LessIsOrder(q, names[k], q);
    assert forall i :: k < i < |names| ==> Less(names[k], names[i]);
  }

  // The guest's own mount points

  const MOUNT_POINTS: seq<string> := ["/dev", "/proc", "/sys", "/run/k3sm"]
  const NAMES: seq<string> := ["dev", "init", "proc", "run", "run/k3sm", "sys"]

  lemma OneComponent(c: string)
    requires Proper(c)
    ensures Components("/" + c) == [c]
  {
    WholeComponent(c);
    assert ("/" + c)[1..] == c && c[..|c|] == c && c[|c|..] == "";
    assert c[0] in c;
    assert Components(c) == [c] + Components("") == [c];
  }

  lemma PartsOfOne(p: string, c: string)
    requires p == "/" + c && Proper(c)
    ensures Parts(p) == [c] && DirsOf(p) == {c}
  {
    assert Render([c]) == "/" + c + "" == p;
    RenderIsClean([c]);
    IsCleanExactly(p);
    OneComponent(c);
    assert Parts(p)[..1] == [c];
  }

  lemma {:induction false} WholeComponent(c: string)
    requires '/' !in c
    ensures ComponentLen(c) == |c|
  {
    if c != "" {
      assert c[0] in c;
      WholeComponent(c[1..]);
    }
  }

  lemma NamesAreSorted()
    ensures Sorted(NAMES)
  {
    assert Less("dev", "init") && Less("init", "proc") && Less("proc", "run") && Less("run/k3sm", "sys");
    PrefixLess("run", "run/k3sm");
    assert forall i :: 0 <= i < 5 ==> Less(NAMES[i], NAMES[i + 1]);
    StepwiseSorted(NAMES);
  }

  lemma PartsOfTwo(p: string, a: string, b: string)
    requires p == "/" + a + "/" + b && Proper(a) && Proper(b)
    ensures Parts(p) == [a, b] && DirsOf(p) == {a, a + "/" + b}
  {
    assert [a, b][1..] == [b];
    assert Render([b]) == "/" + b + "" == "/" + b;
    assert Render([a, b]) == "/" + a + ("/" + b) == p;
    RenderIsClean([a, b]);
    IsCleanExactly(p);
    ComponentsConcat("/" + a, "/" + b);
    assert p == ("/" + a) + ("/" + b);
    OneComponent(a);
    OneComponent(b);
    assert Parts(p)[..1] == [a] && Parts(p)[..2] == [a, b];
    assert Rel([a, b]) == a + "/" + b;
    TwoDirs(p);
  }

  lemma TwoDirs(p: string)
    requires |Parts(p)| == 2
    ensures DirsOf(p) == {Rel(Parts(p)[..1]), Rel(Parts(p)[..2])}
  {
  }

  lemma DirsOfFour(a: string, b: string, c: string, d: string)
    ensures Dirs([a, b, c, d]) == DirsOf(a) + DirsOf(b) + DirsOf(c) + DirsOf(d)
  {
    DirsSnoc([a, b, c], d);
    DirsSnoc([a, b], c);
    DirsSnoc([a], b);
    DirsSnoc([], a);
    assert [a, b, c] + [d] == [a, b, c, d] && [a, b] + [c] == [a, b, c] && [a] + [b] == [a, b] && [] + [a] == [a];
  }

  lemma DirsSnoc(points: seq<string>, p: string)
    ensures Dirs(points + [p]) == Dirs(points) + DirsOf(p)
  {
    assert (points + [p])[..|points|] == points;
  }

  lemma DevDirs()
    ensures DirsOf("/dev") == {"dev"}
  {
    PartsOfOne("/dev", "dev");
  }

  lemma ProcDirs()
    ensures DirsOf("/proc") == {"proc"}
  {
    PartsOfOne("/proc", "proc");
  }

  lemma SysDirs()
    ensures DirsOf("/sys") == {"sys"}
  {
    PartsOfOne("/sys", "sys");
  }

  lemma ScratchDirs()
    ensures DirsOf("/run/k3sm") == {"run", "run/k3sm"}
  {
    ScratchSpelled();
    PartsOfTwo("/run/k3sm", "run", "k3sm");
  }

  lemma ScratchSpelled()
    ensures "run" + "/" + "k3sm" == "run/k3sm" && "/" + "run" + "/" + "k3sm" == "/run/k3sm"
    ensures Proper("run") && Proper("k3sm")
  {
  }

  lemma DirsAre()
    ensures Dirs(MOUNT_POINTS) == {"dev", "proc", "sys", "run", "run/k3sm"}
  {
    DevDirs();
    ProcDirs();
    SysDirs();
    ScratchDirs();
    DirsOfFour("/dev", "/proc", "/sys", "/run/k3sm");
  }

  lemma NamesAre()
    ensures NamesOf(MOUNT_POINTS, NAMES) && "init" !in Dirs(MOUNT_POINTS)
  {
    DirsAre();
    NamesAreSorted();
  }

  datatype Composed = ErrEmptyInit | Composed(bytes: ByteString)

  /** ComposeInitramfs: a pure function of the init payload. */
  method ComposeInitramfs(init: ByteString) returns (r: Composed)
    ensures r == if init == [] then ErrEmptyInit else Composed(Archive(EntriesFor(NAMES, init)))
  {
    if |init| == 0 {
      return ErrEmptyInit;
    }
    NamesAre();
    var es, names := ComposeEntries(MOUNT_POINTS, init);
    OrderDoesNotMatter(MOUNT_POINTS, names, NAMES);
    var w := WriteArchive(es);
    r := Composed(w);
  }

  method WriteArchive(es: seq<Entry>) returns (w: ByteString)
    ensures w == Archive(es)
  {
    w := [];
    ghost var ws := Pieces(es);
    for i := 0 to |es|
      invariant w + Join(ws, i) == Join(ws, 0)
    {
      ghost var before := w;
      w := WriteEntry(w, es[i], i + 1);
      assert before + (ws[i] + Join(ws, i + 1)) == before + ws[i] + Join(ws, i + 1);
    }
    assert w + [] == w;
    w := WriteEntry(w, Entry(TRAILER, 0, 1, []), 0);
  }

  /** The kernel reads the composed archive back as exactly the composed members if and only if
      the init payload is smaller than 4 GiB. */
  lemma InitramfsReadsBack(init: ByteString)
    ensures ReadArchive(Archive(EntriesFor(NAMES, init))) == Some(MembersOf(EntriesFor(NAMES, init))) <==>
            |init| < TWO_32
  {
    var es := EntriesFor(NAMES, init);
    forall i | 0 <= i < |NAMES|
      ensures Storable(es[i]) && (|es[i].data| < TWO_32 <==> NAMES[i] != "init" || |init| < TWO_32)
    {
      ShortName(i);
    }
    assert NAMES[1] == "init";
    RoundTripExactly(es);
  }

  lemma ShortName(i: nat)
    requires i < |NAMES|
    ensures |NAMES[i]| < 10
  {
  }
}
