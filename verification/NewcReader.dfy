/** Reading a newc archive back, at absolute stream offsets, and the round trip. */
module NewcReader {
  import opened Bytes
  import opened Newc
  import opened MemberStream
  import opened Wrappers

  function Align(n: nat): nat { n + PadLen(n) }

  function FieldAt(b: ByteString, at: nat, k: nat): (s: ByteString)
    requires at + HEADER_SIZE <= |b| && k < 13
    ensures |s| == 8
  {
    b[at + 6 + 8 * k..at + 14 + 8 * k]
  }

  predicate HeaderAt(b: ByteString, at: nat) {
    at + HEADER_SIZE <= |b| && b[at..at + 6] == MAGIC && forall k :: 0 <= k < 13 ==> IsHex(FieldAt(b, at, k))
  }

  function FieldsAt(b: ByteString, at: nat): (fs: seq<nat>)
    requires HeaderAt(b, at)
    ensures |fs| == 13 && forall k :: 0 <= k < 13 ==> fs[k] == HexValue(FieldAt(b, at, k))
  {
    seq(13, k requires 0 <= k < 13 => HexValue(FieldAt(b, at, k)))
  }

  function ReadMember(b: ByteString, at: nat): (r: Reading)
    ensures r.Next? ==> at < r.at <= |b|
  {
    if !HeaderAt(b, at) then Broken
    else
      var fields := FieldsAt(b, at);
      var nameEnd := at + HEADER_SIZE + fields[11];
      if fields[11] == 0 || nameEnd > |b| || b[nameEnd - 1] != 0 then Broken
      else
        var name := b[at + HEADER_SIZE..nameEnd - 1];
        var start := Align(nameEnd);
        var end := start + fields[6];
        if name == TRAILER then Last
        else if end > |b| || Align(end) > |b| then Broken
        else Next(Member(fields, name, b[start..end]), Align(end))
  }

  /** The whole archive, up to the trailer. */
  function ReadArchive(b: ByteString): Option<seq<Member>> {
    ReadAll(ReadMember, b, 0)
  }

  // The parts of a written member

  lemma {:induction false} HexAllAt(fields: seq<nat>, k: nat)
    requires k < |fields|
    ensures HexAll(fields)[8 * k..8 * k + 8] == Hex8(fields[k])
  {
    var n := |fields| - 1;
    var init, last := HexAll(fields[..n]), Hex8(fields[n]);
    if k < n {
      HexAllAt(fields[..n], k);
      assert (init + last)[8 * k..8 * k + 8] == init[8 * k..8 * k + 8];
    } else {
      assert (init + last)[8 * n..] == last;
    }
  }

  function NameEnd(e: Entry): nat { HEADER_SIZE + |e.name| + 1 }

  function DataStart(e: Entry): nat { Align(NameEnd(e)) }

  lemma HeadParts(e: Entry, ino: nat)
    ensures |Head(e, ino)| == DataStart(e)
    ensures Head(e, ino)[..6] == MAGIC && Head(e, ino)[6..HEADER_SIZE] == HexAll(FieldsOf(e, ino))
    ensures Head(e, ino)[HEADER_SIZE..NameEnd(e) - 1] == e.name && Head(e, ino)[NameEnd(e) - 1] == 0
  {
    var hex, pad := HexAll(FieldsOf(e, ino)), Zeros(PadLen(NameEnd(e)));
    assert |hex| == 104;
    assert Head(e, ino) == MAGIC + hex + e.name + [0] + pad;
    assert (MAGIC + hex + e.name + [0] + pad)[..6] == MAGIC;
    assert (MAGIC + hex + e.name + [0] + pad)[6..110] == hex;
    assert (MAGIC + hex + e.name + [0] + pad)[110..110 + |e.name|] == e.name;
  }

  lemma WrittenParts(e: Entry, ino: nat)
    ensures |Written(e, ino)| == Align(DataStart(e) + |e.data|) && |Written(e, ino)| % 4 == 0 && DataStart(e) % 4 == 0
    ensures Written(e, ino)[..DataStart(e)] == Head(e, ino)
    ensures Written(e, ino)[DataStart(e)..DataStart(e) + |e.data|] == e.data
  {
    HeadParts(e, ino);
    var head, pad := Head(e, ino), Zeros(PadLen(|e.data|));
    assert Written(e, ino) == head + e.data + pad;
    PadShift(DataStart(e), |e.data|);
  }

  lemma PadShift(a: nat, n: nat)
    requires a % 4 == 0
    ensures PadLen(a + n) == PadLen(n)
  {
  }

  lemma Slice(before: ByteString, w: ByteString, after: ByteString, i: nat, j: nat)
    requires i <= j <= |w|
    ensures (before + w + after)[|before| + i..|before| + j] == w[i..j]
  {
  }

  lemma SubSlice(b: ByteString, at: nat, n: nat, i: nat, j: nat)
    requires at + n <= |b| && i <= j <= n
    ensures b[at..at + n][i..j] == b[at + i..at + j]
  {
    var whole, part := b[at..at + n][i..j], b[at + i..at + j];
    forall k | 0 <= k < j - i
      ensures whole[k] == part[k]
    {
      assert b[at..at + n][i + k] == b[at + i + k];
    }
  }

  lemma FieldIsRead(b: ByteString, at: nat, fields: seq<nat>, k: nat)
    requires at + HEADER_SIZE <= |b| && |fields| == 13 && b[at + 6..at + HEADER_SIZE] == HexAll(fields)
    requires k < 13 && fields[k] < TWO_32
    ensures IsHex(FieldAt(b, at, k)) && HexValue(FieldAt(b, at, k)) == fields[k]
  {
    SubSlice(b, at + 6, 104, 8 * k, 8 * k + 8);
    assert FieldAt(b, at, k) == HexAll(fields)[8 * k..8 * k + 8];
    HexAllAt(fields, k);
    HexRoundTrip(fields[k]);
  }

  lemma FieldsFit(e: Entry, ino: nat)
    requires ino < TWO_32 && e.mode < TWO_32 && e.nlink < TWO_32
    ensures forall k :: 0 <= k < 13 ==> FieldsOf(e, ino)[k] < TWO_32
  {
  }

  lemma HeaderFrom(b: ByteString, at: nat, fields: seq<nat>)
    requires at + HEADER_SIZE <= |b| && b[at..at + 6] == MAGIC && b[at + 6..at + HEADER_SIZE] == HexAll(fields)
    requires |fields| == 13 && forall k :: 0 <= k < 13 ==> fields[k] < TWO_32
    ensures HeaderAt(b, at) && FieldsAt(b, at) == fields
  {
    forall k | 0 <= k < 13
      ensures IsHex(FieldAt(b, at, k)) && HexValue(FieldAt(b, at, k)) == fields[k]
    {
      FieldIsRead(b, at, fields, k);
    }
  }

  lemma HeaderIsRead(b: ByteString, at: nat, e: Entry, ino: nat)
    requires at + DataStart(e) <= |b| && b[at..at + DataStart(e)] == Head(e, ino)
    requires ino < TWO_32 && e.mode < TWO_32 && e.nlink < TWO_32
    ensures HeaderAt(b, at) && FieldsAt(b, at) == FieldsOf(e, ino)
  {
    HeadParts(e, ino);
    FieldsFit(e, ino);
    SubSlice(b, at, DataStart(e), 0, 6);
    SubSlice(b, at, DataStart(e), 6, HEADER_SIZE);
    HeaderFrom(b, at, FieldsOf(e, ino));
  }

  lemma NameIsRead(b: ByteString, at: nat, e: Entry, ino: nat)
    requires at + DataStart(e) <= |b| && b[at..at + DataStart(e)] == Head(e, ino)
    ensures b[at + NameEnd(e) - 1] == 0 && b[at + HEADER_SIZE..at + NameEnd(e) - 1] == e.name
  {
    HeadParts(e, ino);
    SubSlice(b, at, DataStart(e), HEADER_SIZE, NameEnd(e) - 1);
    assert b[at..at + DataStart(e)][NameEnd(e) - 1] == b[at + NameEnd(e) - 1];
  }

  /** The header and name at `at` are those of a member named e.name. */
  predicate NamedAt(b: ByteString, at: nat, e: Entry, fields: seq<nat>) {
    HeaderAt(b, at) && FieldsAt(b, at) == fields && at % 4 == 0 &&
    fields[11] == |e.name| + 1 && at + DataStart(e) <= |b| &&
    b[at + NameEnd(e) - 1] == 0 && b[at + HEADER_SIZE..at + NameEnd(e) - 1] == e.name
  }

  lemma ReadTrailer(b: ByteString, at: nat, e: Entry, fields: seq<nat>)
    requires NamedAt(b, at, e, fields) && e.name == TRAILER
    ensures ReadMember(b, at) == Last
  {
  }

  lemma AlignShift(a: nat, n: nat)
    requires a % 4 == 0
    ensures Align(a + n) == a + Align(n) && Align(a + n) % 4 == 0
  {
    PadShift(a, n);
  }

  lemma WrittenIsThere(before: ByteString, e: Entry, ino: nat, after: ByteString)
    ensures
      var b, at := before + Written(e, ino) + after, |before|;
      at + DataStart(e) + |e.data| + PadLen(|e.data|) <= |b| && b[at..at + DataStart(e)] == Head(e, ino) &&
      b[at + DataStart(e)..at + DataStart(e) + |e.data|] == e.data
  {
    WrittenParts(e, ino);
    Slice(before, Written(e, ino), after, 0, DataStart(e));
    Slice(before, Written(e, ino), after, DataStart(e), DataStart(e) + |e.data|);
    PadShift(DataStart(e), |e.data|);
  }

  /** A member written on a 4-byte boundary is read back whole, whatever surrounds it. */
  lemma MemberIsRead(before: ByteString, e: Entry, ino: nat, after: ByteString)
    requires |before| % 4 == 0 && ino < TWO_32 && Fits(e) && |e.data| < TWO_32 && e.name != TRAILER
    ensures ReadMember(before + Written(e, ino) + after, |before|)
            == Next(Member(FieldsOf(e, ino), e.name, e.data), |before| + |Written(e, ino)|)
  {
    var b, at := before + Written(e, ino) + after, |before|;
    WrittenIsThere(before, e, ino, after);
    MemberIsReadAt(b, at, e, ino);
    WrittenParts(e, ino);
    PadShift(DataStart(e), |e.data|);
  }

  lemma MemberIsReadAt(b: ByteString, at: nat, e: Entry, ino: nat)
    requires at % 4 == 0 && ino < TWO_32 && Fits(e) && |e.data| < TWO_32 && e.name != TRAILER
    requires at + DataStart(e) + |e.data| + PadLen(|e.data|) <= |b| && b[at..at + DataStart(e)] == Head(e, ino)
    requires b[at + DataStart(e)..at + DataStart(e) + |e.data|] == e.data
    ensures ReadMember(b, at) ==
            Next(Member(FieldsOf(e, ino), e.name, e.data), at + DataStart(e) + |e.data| + PadLen(|e.data|))
  {
    HeaderIsRead(b, at, e, ino);
    NameIsRead(b, at, e, ino);
    SizesAre(e, ino);
    ReadOneWhole(b, at, e, FieldsOf(e, ino));
  }

  lemma SizesAre(e: Entry, ino: nat)
    requires Fits(e)
    ensures FieldsOf(e, ino)[6] == |e.data| % TWO_32 && FieldsOf(e, ino)[11] == |e.name| + 1
  {
  }

  lemma ReadOneWhole(b: ByteString, at: nat, e: Entry, fields: seq<nat>)
    requires NamedAt(b, at, e, fields) && e.name != TRAILER && fields[6] == |e.data|
    requires at + DataStart(e) + |e.data| + PadLen(|e.data|) <= |b|
    requires b[at + DataStart(e)..at + DataStart(e) + |e.data|] == e.data
    ensures ReadMember(b, at) == Next(Member(fields, e.name, e.data), at + DataStart(e) + |e.data| + PadLen(|e.data|))
  {
    var start := at + DataStart(e);
    AlignShift(at, NameEnd(e));
    AlignShift(start, |e.data|);
    ReadAt(b, at, fields, at + NameEnd(e), start, start + |e.data|, start + |e.data| + PadLen(|e.data|));
  }

  /** What the reader makes of a whole header, name and payload. */
  lemma ReadAt(b: ByteString, at: nat, fields: seq<nat>, nameEnd: nat, start: nat, end: nat, next: nat)
    requires HeaderAt(b, at) && FieldsAt(b, at) == fields && fields[11] > 0
    requires nameEnd == at + HEADER_SIZE + fields[11] <= |b| && b[nameEnd - 1] == 0
    requires start == Align(nameEnd) && end == start + fields[6] && next == Align(end) && end <= next <= |b|
    requires b[at + HEADER_SIZE..nameEnd - 1] != TRAILER
    ensures ReadMember(b, at) == Next(Member(fields, b[at + HEADER_SIZE..nameEnd - 1], b[start..end]), next)
  {
  }

  lemma TrailerIsRead(before: ByteString, e: Entry)
    requires |before| % 4 == 0 && e.name == TRAILER && Fits(e)
    ensures ReadMember(before + Written(e, 0), |before|) == Last
  {
    WrittenIsThere(before, e, 0, []);
    assert before + Written(e, 0) + [] == before + Written(e, 0);
    TrailerIsReadAt(before + Written(e, 0), |before|, e);
  }

  lemma TrailerIsReadAt(b: ByteString, at: nat, e: Entry)
    requires at % 4 == 0 && e.name == TRAILER && Fits(e)
    requires at + DataStart(e) <= |b| && b[at..at + DataStart(e)] == Head(e, 0)
    ensures ReadMember(b, at) == Last
  {
    HeaderIsRead(b, at, e, 0);
    NameIsRead(b, at, e, 0);
    SizesAre(e, 0);
    ReadTrailer(b, at, e, FieldsOf(e, 0));
  }

  predicate Sized(m: Member) { |m.fields| == 13 && |m.data| == m.fields[6] }

  // The archive

  function End(): Entry { Entry(TRAILER, 0, 1, []) }

  predicate Storable(e: Entry) { Fits(e) && e.name != TRAILER }

  function MemberOf(e: Entry, ino: nat): Member { Member(FieldsOf(e, ino), e.name, e.data) }

  lemma WrittenReads(e: Entry, ino: nat)
    requires Storable(e) && ino < TWO_32 && |e.data| < TWO_32
    ensures Reads(ReadMember, Written(e, ino), MemberOf(e, ino))
  {
    WrittenParts(e, ino);
    var w, m := Written(e, ino), MemberOf(e, ino);
    forall before: ByteString, after: ByteString
      ensures ReadsIn(ReadMember, before, w, after, m)
    {
      if |before| % 4 == 0 {
        MemberIsRead(before, e, ino, after);
      }
    }
  }

  lemma TrailerEnds()
    ensures Ends(ReadMember, Written(End(), 0))
  {
    var w := Written(End(), 0);
    forall before: ByteString
      ensures EndsIn(ReadMember, before, w)
    {
      if |before| % 4 == 0 {
        TrailerIsRead(before, End());
      }
    }
  }

  /** The members as written, inodes being 1-based positions. */
  function Pieces(es: seq<Entry>): (ws: seq<ByteString>)
    ensures |ws| == |es| && forall i :: 0 <= i < |es| ==> ws[i] == Written(es[i], i + 1)
  {
    seq(|es|, i requires 0 <= i < |es| => Written(es[i], i + 1))
  }

  function MembersOf(es: seq<Entry>): (ms: seq<Member>)
    ensures |ms| == |es| && forall i :: 0 <= i < |es| ==> ms[i] == MemberOf(es[i], i + 1)
  {
    seq(|es|, i requires 0 <= i < |es| => MemberOf(es[i], i + 1))
  }

  function Archive(es: seq<Entry>): ByteString { Join(Pieces(es), 0) + Written(End(), 0) }

  lemma AllSized(b: ByteString)
    ensures ReadArchive(b).Some? ==> forall i :: 0 <= i < |ReadArchive(b).value| ==> Sized(ReadArchive(b).value[i])
  {
    ReadAllHas(ReadMember, b, 0, m => Sized(m));
  }

  lemma NotSized(e: Entry, ino: nat)
    requires Fits(e) && |e.data| >= TWO_32
    ensures !Sized(MemberOf(e, ino))
  {
    SizesAre(e, ino);
  }

  /** The round trip: an archive reads back to exactly its members if and only if every payload's
      length fits the 32-bit size field. */
  lemma RoundTripExactly(es: seq<Entry>)
    requires |es| < TWO_32 - 1 && forall i :: 0 <= i < |es| ==> Storable(es[i])
    ensures ReadArchive(Archive(es)) == Some(MembersOf(es)) <==> forall i :: 0 <= i < |es| ==> |es[i].data| < TWO_32
  {
    if forall i :: 0 <= i < |es| ==> |es[i].data| < TWO_32 {
      ReadsBack(es);
    } else {
      var i :| 0 <= i < |es| && |es[i].data| >= TWO_32;
      AllSized(Archive(es));
      NotSized(es[i], i + 1);
      assert MembersOf(es)[i] == MemberOf(es[i], i + 1);
    }
  }

  lemma PiecesRead(es: seq<Entry>)
    requires |es| < TWO_32 - 1 && forall i :: 0 <= i < |es| ==> Storable(es[i]) && |es[i].data| < TWO_32
    ensures forall i :: 0 <= i < |es| ==> Reads(ReadMember, Pieces(es)[i], MembersOf(es)[i])
  {
    var ws, ms := Pieces(es), MembersOf(es);
    forall i | 0 <= i < |es|
      ensures Reads(ReadMember, ws[i], ms[i])
    {
      PieceReads(ws[i], ms[i], es[i], i + 1);
    }
  }

  lemma PieceReads(w: ByteString, m: Member, e: Entry, ino: nat)
    requires w == Written(e, ino) && m == MemberOf(e, ino)
    requires Storable(e) && ino < TWO_32 && |e.data| < TWO_32
    ensures Reads(ReadMember, w, m)
  {
    WrittenReads(e, ino);
  }

  lemma ReadsBack(es: seq<Entry>)
    requires |es| < TWO_32 - 1 && forall i :: 0 <= i < |es| ==> Storable(es[i]) && |es[i].data| < TWO_32
    ensures ReadArchive(Archive(es)) == Some(MembersOf(es))
  {
    PiecesRead(es);
    TrailerEnds();
    ReadsWhole(ReadMember, Pieces(es), Written(End(), 0), MembersOf(es));
  }

  lemma PiecesAligned(es: seq<Entry>)
    ensures AllAligned(Pieces(es))
  {
    forall i | 0 <= i < |es|
      ensures |Pieces(es)[i]| % 4 == 0
    {
      WrittenParts(es[i], i + 1);
    }
  }

  /** Entry k's member stands in b at `at`: its header there and its payload behind, each on a
      4-byte boundary. */
  predicate StandsAt(b: ByteString, at: nat, e: Entry, ino: nat) {
    var start := at + DataStart(e);
    at % 4 == 0 && start % 4 == 0 && start + |e.data| <= |b| && b[at..start] == Head(e, ino) &&
    b[start..start + |e.data|] == e.data
  }

  lemma MemberStands(b: ByteString, at: nat, w: ByteString, e: Entry, ino: nat)
    requires at % 4 == 0 && w == Written(e, ino) && at + |w| <= |b| && b[at..at + |w|] == w
    ensures StandsAt(b, at, e, ino)
  {
    WrittenParts(e, ino);
    AlignedSum(at, DataStart(e));
    SubSlice(b, at, |w|, 0, DataStart(e));
    SubSlice(b, at, |w|, DataStart(e), DataStart(e) + |e.data|);
  }

  lemma StreamAligned(ws: seq<ByteString>, end: ByteString, k: nat, e: Entry, ino: nat)
    requires AllAligned(ws) && k < |ws| && ws[k] == Written(e, ino)
    ensures StandsAt(Join(ws, 0) + end, Offset(ws, k), e, ino)
  {
    PieceStands(ws, end, k);
    MemberStands(Join(ws, 0) + end, Offset(ws, k), ws[k], e, ino);
  }

  /** Every member stands in the archive whole, its header and its payload each on a 4-byte
      boundary of the stream. */
  lemma ArchiveAligned(es: seq<Entry>, k: nat)
    requires k < |es|
    ensures StandsAt(Archive(es), Offset(Pieces(es), k), es[k], k + 1)
  {
    PiecesAligned(es);
    StreamAligned(Pieces(es), Written(End(), 0), k, es[k], k + 1);
  }

  /** The trailer follows the last member, on a boundary too, and nothing follows it. */
  lemma TrailerAligned(es: seq<Entry>)
    ensures
      var b, at := Archive(es), Offset(Pieces(es), |es|);
      at % 4 == 0 && |b| % 4 == 0 && at <= |b| && b[at..] == Written(End(), 0)
  {
    PiecesAligned(es);
    TrailerIsAligned();
    EndStands(Pieces(es), Written(End(), 0));
  }

  lemma TrailerIsAligned()
    ensures |Written(End(), 0)| % 4 == 0
  {
    WrittenParts(End(), 0);
  }
}
