/** Streams of archive members, for any way of reading one member at an offset. */
module MemberStream {
  import opened Bytes
  import opened Wrappers

  datatype Member = Member(fields: seq<nat>, name: ByteString, data: ByteString)

  /** One member read: nothing readable, the trailer, or a member and where the next one starts. */
  datatype Reading = Broken | Last | Next(member: Member, at: nat)

  /** Read members from an offset up to the last; each must move on within the stream. */
  function ReadAll(read: (ByteString, nat) -> Reading, b: ByteString, at: nat): Option<seq<Member>>
    requires at <= |b|
    decreases |b| - at
  {
    match read(b, at)
    case Broken => None
    case Last => Some([])
    case Next(m, next) =>
      if next <= at || next > |b| then None
      else
        match ReadAll(read, b, next)
        case None => None
        case Some(rest) => Some([m] + rest)
  }

  function Join(ws: seq<ByteString>, k: nat): ByteString
    requires k <= |ws|
    decreases |ws| - k
  {
    if k == |ws| then [] else ws[k] + Join(ws, k + 1)
  }

  /** The bytes w are read as member m wherever they stand on a 4-byte boundary. */
  predicate ReadsIn(read: (ByteString, nat) -> Reading, before: ByteString, w: ByteString, after: ByteString,
                    m: Member)
  {
    |before| % 4 == 0 ==> read(before + w + after, |before|) == Next(m, |before| + |w|)
  }

  ghost predicate Reads(read: (ByteString, nat) -> Reading, w: ByteString, m: Member) {
    |w| > 0 && |w| % 4 == 0 && forall before: ByteString, after: ByteString :: ReadsIn(read, before, w, after, m)
  }

  predicate EndsIn(read: (ByteString, nat) -> Reading, before: ByteString, w: ByteString) {
    |before| % 4 == 0 ==> read(before + w, |before|) == Last
  }

  ghost predicate Ends(read: (ByteString, nat) -> Reading, w: ByteString) {
    forall before: ByteString :: EndsIn(read, before, w)
  }

  lemma {:induction false} ReadsStream(read: (ByteString, nat) -> Reading, before: ByteString, ws: seq<ByteString>,
                                       end: ByteString, ms: seq<Member>, k: nat)
    requires |before| % 4 == 0 && k <= |ws| == |ms| && Ends(read, end)
    requires forall i :: 0 <= i < |ws| ==> Reads(read, ws[i], ms[i])
    ensures ReadAll(read, before + (Join(ws, k) + end), |before|) == Some(ms[k..])
    decreases |ws| - k
  {
    if k == |ws| {
      assert Join(ws, k) + end == end;
      assert EndsIn(read, before, end);
    } else {
      var w, rest := ws[k], Join(ws, k + 1) + end;
      assert Reads(read, w, ms[k]);
      assert before + (Join(ws, k) + end) == before + w + rest;
      ReadsStream(read, before + w, ws, end, ms, k + 1);
      assert |before + w| == |before| + |w|;
      assert ReadsIn(read, before, w, rest, ms[k]);
      assert ms[k..] == [ms[k]] + ms[k + 1..];
    }
  }

  /** A stream of readable pieces and an end is read as exactly their members. */
  lemma ReadsWhole(read: (ByteString, nat) -> Reading, ws: seq<ByteString>, end: ByteString, ms: seq<Member>)
    requires |ws| == |ms| && Ends(read, end) && forall i :: 0 <= i < |ws| ==> Reads(read, ws[i], ms[i])
    ensures ReadAll(read, Join(ws, 0) + end, 0) == Some(ms)
  {
    ReadsStream(read, [], ws, end, ms, 0);
    assert [] + (Join(ws, 0) + end) == Join(ws, 0) + end && ms[0..] == ms;
  }

  /** Where piece k of a stream starts. */
  function Offset(ws: seq<ByteString>, k: nat): nat
    requires k <= |ws|
  {
    if k == 0 then 0 else Offset(ws, k - 1) + |ws[k - 1]|
  }

  /** Every piece is a whole number of 4-byte words long. */
  predicate AllAligned(ws: seq<ByteString>) {
    forall i :: 0 <= i < |ws| ==> |ws[i]| % 4 == 0
  }

  lemma {:induction false} OffsetsAligned(ws: seq<ByteString>, k: nat)
    requires k <= |ws| && AllAligned(ws)
    ensures Offset(ws, k) % 4 == 0
  {
    if k > 0 {
      OffsetsAligned(ws, k - 1);
      AlignedSum(Offset(ws, k - 1), |ws[k - 1]|);
    }
  }

  lemma AlignedSum(a: nat, b: nat)
    requires a % 4 == 0 && b % 4 == 0
    ensures (a + b) % 4 == 0
  {
  }

  lemma {:induction false} JoinLength(ws: seq<ByteString>, k: nat)
    requires k <= |ws|
    ensures |Join(ws, k)| == Offset(ws, |ws|) - Offset(ws, k)
    decreases |ws| - k
  {
    if k < |ws| {
      JoinLength(ws, k + 1);
    }
  }

  /** Piece k stands at its offset. */
  lemma {:induction false} PieceAt(ws: seq<ByteString>, j: nat, k: nat)
    requires j <= k < |ws|
    ensures
      var at := Offset(ws, k) - Offset(ws, j);
      0 <= at && at + |ws[k]| <= |Join(ws, j)| && Join(ws, j)[at..at + |ws[k]|] == ws[k]
    decreases k - j
  {
    if j < k {
      PieceAt(ws, j + 1, k);
      var at, rest := Offset(ws, k) - Offset(ws, j + 1), Join(ws, j + 1);
      Behind(ws[j], rest, at, |ws[k]|);
    } else {
      Behind(ws[k], Join(ws, k + 1), 0, 0);
    }
  }

  lemma Behind(a: ByteString, rest: ByteString, at: nat, n: nat)
    requires at + n <= |rest|
    ensures (a + rest)[|a| + at..|a| + at + n] == rest[at..at + n] && (a + rest)[..|a|] == a
  {
  }

  /** Of a stream of aligned pieces, each stands whole on a boundary. */
  lemma PieceStands(ws: seq<ByteString>, end: ByteString, k: nat)
    requires k < |ws| && AllAligned(ws)
    ensures
      var b, at := Join(ws, 0) + end, Offset(ws, k);
      at % 4 == 0 && at + |ws[k]| <= |b| && b[at..at + |ws[k]|] == ws[k]
  {
    OffsetsAligned(ws, k);
    PieceAt(ws, 0, k);
    InFront(Join(ws, 0), end, Offset(ws, k), ws[k]);
  }

  lemma InFront(front: ByteString, end: ByteString, at: nat, w: ByteString)
    requires at + |w| <= |front| && front[at..at + |w|] == w
    ensures (front + end)[at..at + |w|] == w
  {
  }

  /** What closes such a stream stands on a boundary too. */
  lemma EndStands(ws: seq<ByteString>, end: ByteString)
    requires |end| % 4 == 0 && AllAligned(ws)
    ensures
      var b, at := Join(ws, 0) + end, Offset(ws, |ws|);
      at % 4 == 0 && |b| % 4 == 0 && at <= |b| && b[at..] == end
  {
    OffsetsAligned(ws, |ws|);
    JoinLength(ws, 0);
    AlignedSum(Offset(ws, |ws|), |end|);
  }

  /** What every member read has, the stream has throughout. */
  lemma {:induction false} ReadAllHas(read: (ByteString, nat) -> Reading, b: ByteString, at: nat, has: Member -> bool)
    requires at <= |b| && forall i: nat :: read(b, i).Next? ==> has(read(b, i).member)
    ensures
      var ms := ReadAll(read, b, at);
      ms.Some? ==> forall i :: 0 <= i < |ms.value| ==> has(ms.value[i])
    decreases |b| - at
  {
    var r := read(b, at);
    if r.Next? && at < r.at <= |b| {
      ReadAllHas(read, b, r.at, has);
    }
  }
}
