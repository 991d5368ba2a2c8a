/** Lines cut into tagged chunks of a bounded size: which chunks a stream's lines make, and that a
    log reader joins them back to those lines. */
module LineCuts {
  import opened Bytes
  import opened LogLines

  /** One line in pieces of at most max: every piece but the last partial, the last as given. */
  function Pieces(s: ByteString, max: nat, partial: bool): seq<Chunk>
    requires max > 0
    decreases |s|
  {
    if |s| > max then [Chunk(s[..max], true)] + Pieces(s[max..], max, partial) else [Chunk(s, partial)]
  }

  function CutLines(done: seq<ByteString>, max: nat): seq<Chunk>
    requires max > 0
  {
    if done == [] then [] else Pieces(done[0], max, false) + CutLines(done[1..], max)
  }

  /** The tail of a stream is a run of partial pieces; there is none when there is no tail. */
  function CutTail(tail: ByteString, max: nat): seq<Chunk>
    requires max > 0
  {
    if tail == [] then [] else Pieces(tail, max, true)
  }

  /** The chunks of a stream's lines. */
  function CutAll(p: Lines, max: nat): seq<Chunk>
    requires max > 0
  {
    CutLines(p.done, max) + CutTail(p.tail, max)
  }

  lemma Regroup(a: seq<Chunk>, b: seq<Chunk>, c: seq<Chunk>)
    ensures a + (b + c) == (a + b) + c && a <= a + (b + c)
  {
  }

  // Joining the chunks gives the lines back

  /** What a log reader makes of more chunks on top of what it had. */
  function JoinFrom(p: Lines, cs: seq<Chunk>): Lines {
    if cs == [] then p
    else
      var q, c := JoinFrom(p, cs[..|cs| - 1]), cs[|cs| - 1];
      if c.partial then q.(tail := q.tail + c.data) else Lines(q.done + [q.tail + c.data], [])
  }

  lemma {:induction false} JoinIsFromNothing(cs: seq<Chunk>)
    ensures Join(cs) == JoinFrom(NOTHING, cs)
  {
    if cs != [] {
      JoinIsFromNothing(cs[..|cs| - 1]);
    }
  }

  lemma {:induction false} JoinFromConcat(p: Lines, a: seq<Chunk>, b: seq<Chunk>)
    ensures JoinFrom(p, a + b) == JoinFrom(JoinFrom(p, a), b)
    decreases |b|
  {
    if b == [] {
      assert a + b == a;
    } else {
      assert (a + b)[..|a + b| - 1] == a + b[..|b| - 1];
      JoinFromConcat(p, a, b[..|b| - 1]);
    }
  }

  lemma JoinFromOne(p: Lines, c: Chunk)
    ensures JoinFrom(p, [c]) == if c.partial then p.(tail := p.tail + c.data) else Lines(p.done + [p.tail + c.data], [])
  {
    assert [c][..0] == [];
    assert JoinFrom(p, [c][..0]) == p;
  }

  lemma {:induction false} JoinPieces(p: Lines, s: ByteString, max: nat, partial: bool)
    requires max > 0
    ensures JoinFrom(p, Pieces(s, max, partial)) ==
            if partial then p.(tail := p.tail + s) else Lines(p.done + [p.tail + s], [])
    decreases |s|
  {
    if |s| > max {
      var c, q := Chunk(s[..max], true), p.(tail := p.tail + s[..max]);
      JoinFromConcat(p, [c], Pieces(s[max..], max, partial));
      JoinFromOne(p, c);
      JoinPieces(q, s[max..], max, partial);
      assert p.tail + s[..max] + s[max..] == p.tail + s;
    } else {
      JoinFromOne(p, Chunk(s, partial));
    }
  }

  lemma JoinInTurn(p: Lines, a: seq<Chunk>, b: seq<Chunk>, q: Lines, r: Lines)
    requires JoinFrom(p, a) == q && JoinFrom(q, b) == r
    ensures JoinFrom(p, a + b) == r
  {
    JoinFromConcat(p, a, b);
  }

  lemma JoinLine(done: seq<ByteString>, line: ByteString, max: nat)
    requires max > 0
    ensures JoinFrom(Lines(done, []), Pieces(line, max, false)) == Lines(done + [line], [])
  {
    JoinPieces(Lines(done, []), line, max, false);
    assert [] + line == line;
  }

  lemma MoveFirst(a: seq<ByteString>, b: seq<ByteString>)
    requires b != []
    ensures a + [b[0]] + b[1..] == a + b
  {
  }

  lemma {:induction false} JoinCutLines(before: seq<ByteString>, done: seq<ByteString>, max: nat)
    requires max > 0
    ensures JoinFrom(Lines(before, []), CutLines(done, max)) == Lines(before + done, [])
    decreases |done|
  {
    if done == [] {
      assert before + done == before;
    } else {
      JoinLine(before, done[0], max);
      JoinCutLines(before + [done[0]], done[1..], max);
      MoveFirst(before, done);
      JoinInTurn(Lines(before, []), Pieces(done[0], max, false), CutLines(done[1..], max),
                 Lines(before + [done[0]], []), Lines(before + done, []));
    }
  }

  /** Joining the chunks of any lines gives exactly those lines. */
  lemma JoinCutAll(p: Lines, max: nat)
    requires max > 0
    ensures Join(CutAll(p, max)) == p
  {
    JoinIsFromNothing(CutAll(p, max));
    JoinFromConcat(NOTHING, CutLines(p.done, max), CutTail(p.tail, max));
    JoinCutLines([], p.done, max);
    assert [] + p.done == p.done;
    if p.tail != [] {
      JoinPieces(Lines(p.done, []), p.tail, max, true);
      assert [] + p.tail == p.tail;
    }
  }

  lemma {:induction false} PiecesBounded(s: ByteString, max: nat, partial: bool)
    requires max > 0
    ensures Bounded(Pieces(s, max, partial), max) && (!partial ==> Filled(Pieces(s, max, partial), max))
    decreases |s|
  {
    if |s| > max {
      PiecesBounded(s[max..], max, partial);
    }
  }

  // Cutting while reading

  /** What is still to be emitted when `held` is the unemitted part of the line in progress. */
  function ToCome(held: ByteString, unread: ByteString, max: nat): seq<Chunk>
    requires max > 0
  {
    CutAll(Feed(Lines([], held), unread), max)
  }

  /** Lines already read do not change what is read next. */
  lemma {:induction false} FeedShift(done: seq<ByteString>, tail: ByteString, bs: ByteString)
    ensures
      var q := Feed(Lines([], tail), bs);
      Feed(Lines(done, tail), bs) == Lines(done + q.done, q.tail)
  {
    if bs == [] {
      assert done + [] == done;
    } else {
      FeedShift(done, tail, bs[..|bs| - 1]);
      var q := Feed(Lines([], tail), bs[..|bs| - 1]);
      assert done + q.done + [StripCR(q.tail)] == done + (q.done + [StripCR(q.tail)]);
    }
  }

  /** q reads as q' does but for `a` in front of its first line, which is not empty in q'. */
  predicate Headed(a: ByteString, q: Lines, q': Lines) {
    if q'.done == [] then q.done == [] && q.tail == a + q'.tail && StripCR(q'.tail) != []
    else
      q'.done[0] != [] && q.tail == q'.tail && q.done == [a + q'.done[0]] + q'.done[1..]
  }

  lemma {:induction false} FeedHeaded(a: ByteString, b: ByteString, bs: ByteString)
    requires StripCR(b) != []
    ensures Headed(a, Feed(Lines([], a + b), bs), Feed(Lines([], b), bs))
  {
    if bs != [] {
      var n := |bs| - 1;
      FeedHeaded(a, b, bs[..n]);
      HeadedStep(a, Feed(Lines([], a + b), bs[..n]), Feed(Lines([], b), bs[..n]), bs[n]);
    }
  }

  function FeedByte(q: Lines, b: Byte): Lines {
    if b == LF then Lines(q.done + [StripCR(q.tail)], []) else q.(tail := q.tail + [b])
  }

  lemma HeadedStep(a: ByteString, q: Lines, q': Lines, b: Byte)
    requires Headed(a, q, q')
    ensures Headed(a, FeedByte(q, b), FeedByte(q', b))
  {
    if q'.done == [] {
      StripCRConcat(a, q'.tail);
      assert a + q'.tail + [b] == a + (q'.tail + [b]);
      assert [a + StripCR(q'.tail)] + [] == [a + StripCR(q'.tail)];
      assert [StripCR(q'.tail)][1..] == [];
    } else {
      var line := StripCR(q'.tail);
      assert (q'.done + [line])[1..] == q'.done[1..] + [line];
      assert [a + q'.done[0]] + q'.done[1..] + [line] == [a + q'.done[0]] + (q'.done[1..] + [line]);
    }
  }

  /** A held line over the bound gives up its first piece; the rest is cut as if it stood alone. */
  lemma CutHead(held: ByteString, unread: ByteString, max: nat)
    requires max > 0 && |held| > max
    requires held[|held| - 1] == CR ==> unread != [] && unread[0] == CR
    ensures ToCome(held, unread, max) == [Chunk(held[..max], true)] + ToCome(held[max..], unread, max)
  {
    var a, b := held[..max], held[max..];
    assert held == a + b;
    HeadedRest(a, b, unread);
    CutHeaded(a, Feed(Lines([], a + b), unread), Feed(Lines([], b), unread), max);
  }

  lemma HeadedRest(a: ByteString, b: ByteString, unread: ByteString)
    requires b != [] && (b[|b| - 1] == CR ==> unread != [] && unread[0] == CR)
    ensures Headed(a, Feed(Lines([], a + b), unread), Feed(Lines([], b), unread))
  {
    if b[|b| - 1] == CR {
      var more := unread[1..];
      assert unread == [CR] + more;
      FeedConcat(Lines([], a + b), [CR], more);
      FeedConcat(Lines([], b), [CR], more);
      FeedWithoutNewline(Lines([], a + b), [CR]);
      FeedWithoutNewline(Lines([], b), [CR]);
      assert a + b + [CR] == a + (b + [CR]);
      FeedHeaded(a, b + [CR], more);
    } else {
      FeedHeaded(a, b, unread);
    }
  }

  /** q is q' but for `a` in front of its first line, which is not empty in q'. */
  predicate Prefixed(a: ByteString, q: Lines, q': Lines) {
    if q'.done == [] then q.done == [] && q.tail == a + q'.tail && q'.tail != []
    else q'.done[0] != [] && q.tail == q'.tail && q.done == [a + q'.done[0]] + q'.done[1..]
  }

  lemma CutHeaded(a: ByteString, q: Lines, q': Lines, max: nat)
    requires max > 0 && |a| == max && Prefixed(a, q, q')
    ensures CutAll(q, max) == [Chunk(a, true)] + CutAll(q', max)
  {
    if q'.done == [] {
      PiecesHeaded(a, q'.tail, max, true);
      assert CutLines([], max) + Pieces(q.tail, max, true) == Pieces(q.tail, max, true);
      assert CutLines([], max) + Pieces(q'.tail, max, true) == Pieces(q'.tail, max, true);
    } else {
      PiecesHeaded(a, q'.done[0], max, false);
      assert q.done[1..] == q'.done[1..];
      var rest, tail := CutLines(q'.done[1..], max), CutTail(q'.tail, max);
      assert CutLines(q.done, max) == [Chunk(a, true)] + Pieces(q'.done[0], max, false) + rest;
      assert [Chunk(a, true)] + Pieces(q'.done[0], max, false) + rest + tail
          == [Chunk(a, true)] + (Pieces(q'.done[0], max, false) + rest + tail);
    }
  }

  lemma PiecesHeaded(a: ByteString, s: ByteString, max: nat, partial: bool)
    requires max > 0 && |a| == max && s != []
    ensures Pieces(a + s, max, partial) == [Chunk(a, true)] + Pieces(s, max, partial)
  {
    assert (a + s)[..max] == a && (a + s)[max..] == s;
  }

  /** A piece read joins what is held. */
  lemma ToComePiece(held: ByteString, raw: ByteString, unread: ByteString, max: nat)
    requires max > 0 && LF !in raw
    ensures ToCome(held, raw + unread, max) == ToCome(held + raw, unread, max)
  {
    FeedConcat(Lines([], held), raw, unread);
    FeedWithoutNewline(Lines([], held), raw);
  }

  /** A line read to its newline is cut, and the stream after it starts afresh. */
  lemma ToComeLine(held: ByteString, raw: ByteString, unread: ByteString, max: nat)
    requires max > 0 && LF !in raw && (raw != [] || held == [] || held[|held| - 1] != CR)
    ensures ToCome(held, raw + [LF] + unread, max) == Pieces(held + StripCR(raw), max, false) + ToCome([], unread, max)
  {
    FeedLine(Lines([], held), raw, unread);
    StripCRConcat(held, raw);
    var line := held + StripCR(raw);
    assert [] + [line] == [line];
    FeedShift([line], [], unread);
    var q := Feed(Lines([], []), unread);
    assert ([line] + q.done)[1..] == q.done;
    assert Pieces(line, max, false) + CutLines(q.done, max) + CutTail(q.tail, max)
        == Pieces(line, max, false) + (CutLines(q.done, max) + CutTail(q.tail, max));
  }

  /** At the end of the stream what is held is the tail. */
  lemma ToComeEnd(held: ByteString, max: nat)
    requires max > 0
    ensures ToCome(held, [], max) == CutTail(held, max)
  {
    assert CutLines([], max) + CutTail(held, max) == CutTail(held, max);
  }
}
