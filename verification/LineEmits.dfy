/** What the guest's line writer appends for the bytes it holds, and what it holds back. */
module LineEmits {
  import opened Bytes
  import opened LogLines
  import opened LineCuts

  /** bytes.IndexByte, with the length standing for "absent". */
  function IndexOf(bs: ByteString, b: Byte): (i: nat)
    ensures i <= |bs| && b !in bs[..i] && (i < |bs| ==> bs[i] == b)
  {
    if bs == [] || bs[0] == b then 0
    else
      var i := 1 + IndexOf(bs[1..], b);
      assert bs[..i] == [bs[0]] + bs[1..][..i - 1];
      i
  }

  /** An unterminated rest over the bound goes out in partial pieces. */
  function Overflow(buf: ByteString, max: nat): seq<Chunk>
    requires max > 0
    decreases |buf|
  {
    if |buf| > max then [Chunk(buf[..max], true)] + Overflow(buf[max..], max) else []
  }

  function LeftOver(buf: ByteString, max: nat): ByteString
    requires max > 0
    decreases |buf|
  {
    if |buf| > max then LeftOver(buf[max..], max) else buf
  }

  /** Every complete line in pieces, then the overflow of the unterminated rest. */
  function Emits(buf: ByteString, max: nat): seq<Chunk>
    requires max > 0
    decreases |buf|
  {
    var i := IndexOf(buf, LF);
    if i == |buf| then Overflow(buf, max) else Pieces(StripCR(buf[..i]), max, false) + Emits(buf[i + 1..], max)
  }

  function RestOf(buf: ByteString, max: nat): ByteString
    requires max > 0
    decreases |buf|
  {
    var i := IndexOf(buf, LF);
    if i == |buf| then LeftOver(buf, max) else RestOf(buf[i + 1..], max)
  }

  /** What was appended, with what is held, says exactly what was written, every partial chunk
      filled. A line in progress has its last byte held, so that a carriage return before its
      newline is still seen. */
  ghost predicate Accounts(out: seq<Chunk>, held: ByteString, written: ByteString, max: nat) {
    Feed(Join(out), held) == Split(written) && Bounded(out, max) && Filled(out, max) && LF !in held &&
    |held| <= max && (Join(out).tail != [] ==> held != [])
  }

  lemma JoinOnto(out: seq<Chunk>, cs: seq<Chunk>)
    ensures Join(out + cs) == JoinFrom(Join(out), cs)
  {
    JoinIsFromNothing(out + cs);
    JoinIsFromNothing(out);
    JoinFromConcat(NOTHING, out, cs);
  }

  lemma {:induction false} OverflowBounded(buf: ByteString, max: nat)
    requires max > 0
    ensures Bounded(Overflow(buf, max), max) && Filled(Overflow(buf, max), max) && |LeftOver(buf, max)| <= max
    ensures LF !in buf ==> LF !in LeftOver(buf, max)
    ensures buf != [] ==> LeftOver(buf, max) != []
    decreases |buf|
  {
    if |buf| > max {
      OverflowBounded(buf[max..], max);
    }
  }

  /** The overflow moves bytes of the line in progress from held to appended. */
  lemma {:induction false} OverflowKeeps(p: Lines, buf: ByteString, max: nat)
    requires max > 0
    ensures
      var q := JoinFrom(p, Overflow(buf, max));
      q.done == p.done && q.tail + LeftOver(buf, max) == p.tail + buf
    decreases |buf|
  {
    if |buf| > max {
      var c, q := Chunk(buf[..max], true), p.(tail := p.tail + buf[..max]);
      JoinFromOne(p, c);
      OverflowKeeps(q, buf[max..], max);
      JoinInTurn(p, [c], Overflow(buf[max..], max), q, JoinFrom(q, Overflow(buf[max..], max)));
      assert p.tail + buf[..max] + buf[max..] == p.tail + buf;
    }
  }

  /** A line in progress has been seen not to end at once. */
  predicate Apart(p: Lines, buf: ByteString) {
    p.tail != [] ==> buf != [] && buf[0] != LF
  }

  lemma TailIsHeld(p: Lines, buf: ByteString, max: nat)
    requires max > 0 && Apart(p, buf)
    ensures JoinFrom(p, Overflow(buf, max)).tail != [] ==> LeftOver(buf, max) != []
  {
    OverflowBounded(buf, max);
    if buf == [] {
      assert JoinFrom(p, Overflow(buf, max)) == p;
    }
  }

  lemma {:induction false} EmitsKeep(p: Lines, buf: ByteString, max: nat)
    requires max > 0 && Apart(p, buf)
    ensures
      var q, rest := JoinFrom(p, Emits(buf, max)), RestOf(buf, max);
      Feed(q, rest) == Feed(p, buf) && LF !in rest && |rest| <= max && (q.tail != [] ==> rest != []) &&
      Bounded(Emits(buf, max), max) && Filled(Emits(buf, max), max)
    decreases |buf|
  {
    var i := IndexOf(buf, LF);
    if i == |buf| {
      assert buf[..i] == buf;
      OverflowKeeps(p, buf, max);
      OverflowBounded(buf, max);
      TailIsHeld(p, buf, max);
      FeedWithoutNewline(p, buf);
      FeedWithoutNewline(JoinFrom(p, Overflow(buf, max)), LeftOver(buf, max));
    } else {
      var line, more := buf[..i], buf[i + 1..];
      var q := Lines(p.done + [p.tail + StripCR(line)], []);
      assert buf == line + [LF] + more;
      FeedLine(p, line, more);
      StripCRConcat(p.tail, line);
      JoinPieces(p, StripCR(line), max, false);
      PiecesBounded(StripCR(line), max, false);
      EmitsKeep(q, more, max);
      JoinInTurn(p, Pieces(StripCR(line), max, false), Emits(more, max), q, JoinFrom(q, Emits(more, max)));
    }
  }

  /** One more write keeps the account. */
  lemma WriteAccounts(out: seq<Chunk>, held: ByteString, written: ByteString, max: nat, bytes: ByteString)
    requires max > 0 && Accounts(out, held, written, max)
    ensures Accounts(out + Emits(held + bytes, max), RestOf(held + bytes, max), written + bytes, max)
  {
    var p, buf := Join(out), held + bytes;
    if p.tail != [] {
      assert buf[0] == held[0] && held[0] in held;
    }
    EmitsKeep(p, buf, max);
    JoinOnto(out, Emits(buf, max));
    FeedConcat(p, held, bytes);
    FeedConcat(NOTHING, written, bytes);
  }

  /** Once what is held is flushed, what was appended alone says what was written, and only its
      last chunk can be partial without being filled. */
  lemma FlushAccounts(out: seq<Chunk>, held: ByteString, written: ByteString, max: nat)
    requires Accounts(out, held, written, max)
    ensures Join(out + (if held == [] then [] else [Chunk(held, true)])) == Split(written)
    ensures Bounded(out + (if held == [] then [] else [Chunk(held, true)]), max) && Filled(out, max)
  {
    if held == [] {
      assert out + [] == out;
    } else {
      FeedWithoutNewline(Join(out), held);
      JoinAppend(out, Chunk(held, true));
    }
  }
}
