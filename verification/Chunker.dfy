/** The CRI log chunker: a buffered reader over a container's pipe, and the loop that turns its
    lines into tagged chunks. */
module Chunker {
  import opened Bytes
  import opened LogLines
  import opened LineCuts
  import opened LineEmits
  import opened LineWriting
  import opened TightChunks

  const READ_BUF_BYTES := 4096
  const MAX_LINE_BYTES := 0x4000

  datatype SliceEnd = Found | BufferFull | EndOfStream

  /** bufio.Reader of READ_BUF_BYTES. `buf` is what is buffered and unread, `rest` what the pipe
      will still deliver, in reads of any size. */
  class Reader {
    var buf: ByteString
    var rest: ByteString
    var failed: bool

    ghost predicate Valid()
      reads this
    {
      |buf| <= READ_BUF_BYTES && (failed ==> rest == [])
    }

    ghost function Unread(): ByteString
      reads this
    {
      buf + rest
    }

    constructor (input: ByteString)
      ensures Valid() && Unread() == input
    {
      buf, rest, failed := [], input, false;
    }

    /** One read of the pipe: some bytes, the end, or both at once. */
    method Fill()
      requires Valid() && |buf| < READ_BUF_BYTES && !failed
      modifies this
      ensures Valid() && Unread() == old(Unread())
      ensures failed || |rest| < |old(rest)|
    {
      if rest == [] {
        failed := true;
        return;
      }
      var k: nat :| 1 <= k <= |rest| && k <= READ_BUF_BYTES - |buf|;
      assert buf + rest[..k] + rest[k..] == buf + rest;
      buf, rest := buf + rest[..k], rest[k..];
      if rest == [] {
        var together: bool := *;
        failed := together;
      }
    }

    /** ReadSlice('\n'). How the pipe's bytes were cut into reads does not show in the result. */
    method ReadSlice() returns (line: ByteString, end: SliceEnd)
      requires Valid()
      modifies this
      ensures Valid() && line + Unread() == old(Unread())
      ensures end == Found ==> line != [] && line[|line| - 1] == LF && LF !in line[..|line| - 1]
      ensures end == BufferFull ==> LF !in line && |line| == READ_BUF_BYTES && buf == []
      ensures end == EndOfStream ==> LF !in line && Unread() == []
      ensures |line| <= READ_BUF_BYTES
    {
      while true
        invariant Valid() && Unread() == old(Unread())
        decreases |rest|, !failed
      {
        var i := IndexOf(buf, LF);
        if i < |buf| {
          line, end := buf[..i + 1], Found;
          assert buf == line + buf[i + 1..] && line[..i] == buf[..i];
          assert line + (buf[i + 1..] + rest) == buf + rest;
          buf := buf[i + 1..];
          return;
        }
        assert buf[..i] == buf;
        if failed {
          line, end, buf := buf, EndOfStream, [];
          assert line + (buf + rest) == line + rest;
          return;
        }
        if |buf| >= READ_BUF_BYTES {
          line, end, buf := buf, BufferFull, [];
          assert line + (buf + rest) == line + rest;
          return;
        }
        Fill();
      }
    }

    /** UnreadByte: put the last byte read back in front. */
    method UnreadByte(b: Byte)
      requires Valid() && buf == []
      modifies this`buf
      ensures Valid() && Unread() == [b] + old(Unread())
    {
      buf := [b];
    }

    /** readLine: one line without its terminator, or a piece of one. A piece never separates a
        carriage return from its newline. */
    method ReadLine() returns (line: ByteString, isPrefix: bool, failed: bool, ghost raw: ByteString)
      requires Valid()
      modifies this
      ensures Valid() && LF !in raw && |line| <= READ_BUF_BYTES && !(isPrefix && failed)
      ensures isPrefix ==> line == raw != [] && raw + Unread() == old(Unread())
      ensures isPrefix ==> raw[|raw| - 1] != CR || (Unread() != [] && Unread()[0] == CR)
      ensures failed ==> line == raw == old(Unread()) && Unread() == []
      ensures !isPrefix && !failed ==> line == StripCR(raw) && raw + [LF] + Unread() == old(Unread())
    {
      var end;
      line, end := ReadSlice();
      isPrefix, failed := end == BufferFull, end == EndOfStream;
      raw := line;
      if isPrefix {
        if line[|line| - 1] == CR {
          ghost var after := Unread();
          UnreadByte(CR);
          assert line[..|line| - 1] + ([CR] + after) == line + after;
          line := line[..|line| - 1];
          raw := line;
        }
        return;
      }
      if failed {
        assert line + [] == line;
        return;
      }
      raw := line[..|line| - 1];
      assert raw + [LF] == line;
      if |line| > 1 && line[|line| - 2] == CR {
        line := line[..|line| - 2];
      } else {
        line := line[..|line| - 1];
      }
    }
  }

  /** The caller's sink: it takes every chunk, or refuses the one after its first n. */
  datatype Sink = NeverFails | FailsAfter(n: nat) {
    predicate Takes(k: nat) { FailsAfter? ==> k < n }

    /** It has not been given more than it takes. */
    predicate Holds(k: nat) { FailsAfter? ==> k <= n }
  }

  /** Emit one chunk. */
  method Emit(sink: Sink, out: seq<Chunk>, data: ByteString, partial: bool) returns (out': seq<Chunk>, ok: bool)
    requires sink.Holds(|out|)
    ensures ok == sink.Takes(|out|) && sink.Holds(|out'|)
    ensures out' == if ok then out + [Chunk(data, partial)] else out
  {
    ok := sink.Takes(|out|);
    out' := if ok then out + [Chunk(data, partial)] else out;
  }

  /** What was emitted and what is still to come are the chunks in full. A held carriage return is
      never the one before a newline. */
  predicate Going(sink: Sink, out: seq<Chunk>, held: ByteString, unread: ByteString, full: seq<Chunk>) {
    sink.Holds(|out|) && out + ToCome(held, unread, MAX_LINE_BYTES) == full && |held| <= MAX_LINE_BYTES &&
    (held != [] && held[|held| - 1] == CR ==> unread != [] && unread[0] == CR)
  }

  /** The sink refused the next chunk. */
  predicate Refused(sink: Sink, out: seq<Chunk>, full: seq<Chunk>) {
    out < full && sink == FailsAfter(|out|)
  }

  /** The first piece of a held line over the bound is the next chunk. */
  lemma NextChunk(out: seq<Chunk>, held: ByteString, unread: ByteString, full: seq<Chunk>)
    requires |held| > MAX_LINE_BYTES && out + ToCome(held, unread, MAX_LINE_BYTES) == full
    requires held[|held| - 1] == CR ==> unread != [] && unread[0] == CR
    ensures
      var next := Chunk(held[..MAX_LINE_BYTES], true);
      out + [next] + ToCome(held[MAX_LINE_BYTES..], unread, MAX_LINE_BYTES) == full && out < full
  {
    CutHead(held, unread, MAX_LINE_BYTES);
    Regroup(out, [Chunk(held[..MAX_LINE_BYTES], true)], ToCome(held[MAX_LINE_BYTES..], unread, MAX_LINE_BYTES));
  }

  /** Emit exactly MAX_LINE_BYTES when more is held; the overflow stays held. */
  method CutAtBound(sink: Sink, out: seq<Chunk>, held: ByteString, ghost unread: ByteString, ghost full: seq<Chunk>)
    returns (out': seq<Chunk>, held': ByteString, ok: bool)
    requires sink.Holds(|out|) && out + ToCome(held, unread, MAX_LINE_BYTES) == full && |held| <= 2 * MAX_LINE_BYTES
    requires held != [] && held[|held| - 1] == CR ==> unread != [] && unread[0] == CR
    ensures ok ==> Going(sink, out', held', unread, full)
    ensures !ok ==> Refused(sink, out', full)
  {
    out', held', ok := out, held, true;
    if |held| > MAX_LINE_BYTES {
      NextChunk(out, held, unread, full);
      out', ok := Emit(sink, out, held[..MAX_LINE_BYTES], true);
      held' := held[MAX_LINE_BYTES..];
    }
  }

  /** A line or a tail at the end of its reading: cut at the bound, then the rest as tagged. */
  method EmitPieces(sink: Sink, out: seq<Chunk>, line: ByteString, partial: bool,
                    ghost more: seq<Chunk>, ghost full: seq<Chunk>)
    returns (out': seq<Chunk>, ok: bool)
    requires sink.Holds(|out|) && |line| <= 2 * MAX_LINE_BYTES
    requires out + (Pieces(line, MAX_LINE_BYTES, partial) + more) == full
    ensures ok ==> sink.Holds(|out'|) && out' + more == full
    ensures !ok ==> Refused(sink, out', full)
  {
    var rest := line;
    out' := out;
    if |line| > MAX_LINE_BYTES {
      rest := line[MAX_LINE_BYTES..];
      ghost var first := [Chunk(line[..MAX_LINE_BYTES], true)];
      Regroup(first, Pieces(rest, MAX_LINE_BYTES, partial), more);
      Regroup(out, first, Pieces(rest, MAX_LINE_BYTES, partial) + more);
      out', ok := Emit(sink, out, line[..MAX_LINE_BYTES], true);
      if !ok {
        return;
      }
    }
    assert Pieces(rest, MAX_LINE_BYTES, partial) == [Chunk(rest, partial)];
    Regroup(out', [Chunk(rest, partial)], more);
    out', ok := Emit(sink, out', rest, partial);
  }

  datatype Verdict = Continue | Done | SinkFailed

  /** One round of the chunking loop: read a line or a piece of one, and emit what it completes. */
  method Round(r: Reader, sink: Sink, out: seq<Chunk>, held: ByteString, ghost full: seq<Chunk>)
    returns (out': seq<Chunk>, held': ByteString, v: Verdict)
    requires r.Valid() && Going(sink, out, held, r.Unread(), full)
    modifies r
    ensures r.Valid()
    ensures v == Continue ==> Going(sink, out', held', r.Unread(), full) && |r.Unread()| < |old(r.Unread())|
    ensures v == Done ==> out' == full && sink.Holds(|out'|)
    ensures v == SinkFailed ==> Refused(sink, out', full)
  {
    var line, isPrefix, failed, raw := r.ReadLine();
    held' := [];
    if failed {
      out', v := TakeEnd(sink, out, held, line, full);
    } else if isPrefix {
      out', held', v := TakePiece(sink, out, held, line, r.Unread(), full);
    } else {
      out', v := TakeLine(sink, out, held, line, raw, r.Unread(), full);
    }
  }

  /** The round that read a piece of a line: it is held, and cut at the bound. */
  method TakePiece(sink: Sink, out: seq<Chunk>, held: ByteString, line: ByteString, ghost unread: ByteString,
                   ghost full: seq<Chunk>)
    returns (out': seq<Chunk>, held': ByteString, v: Verdict)
    requires Going(sink, out, held, line + unread, full) && LF !in line && 0 < |line| <= READ_BUF_BYTES
    requires line[|line| - 1] == CR ==> unread != [] && unread[0] == CR
    ensures v == Continue ==> Going(sink, out', held', unread, full)
    ensures v == SinkFailed ==> Refused(sink, out', full)
    ensures v != Done
  {
    ToComePiece(held, line, unread, MAX_LINE_BYTES);
    assert (held + line)[|held + line| - 1] == line[|line| - 1];
    var ok;
    out', held', ok := CutAtBound(sink, out, held + line, unread, full);
    v := if ok then Continue else SinkFailed;
  }

  /** The round that read a newline: the line is emitted, its last chunk complete. */
  method TakeLine(sink: Sink, out: seq<Chunk>, held: ByteString, line: ByteString, ghost raw: ByteString,
                  ghost unread: ByteString, ghost full: seq<Chunk>)
    returns (out': seq<Chunk>, v: Verdict)
    requires Going(sink, out, held, raw + [LF] + unread, full) && LF !in raw
    requires line == StripCR(raw) && |line| <= READ_BUF_BYTES
    ensures v == Continue ==> Going(sink, out', [], unread, full)
    ensures v == SinkFailed ==> Refused(sink, out', full)
    ensures v != Done
  {
    if raw == [] {
      assert (raw + [LF] + unread)[0] == LF;
    }
    ToComeLine(held, raw, unread, MAX_LINE_BYTES);
    var ok;
    out', ok := EmitPieces(sink, out, held + line, false, ToCome([], unread, MAX_LINE_BYTES), full);
    v := if ok then Continue else SinkFailed;
  }

  /** The round that read the end: what is left is emitted partial, unless nothing is. */
  method TakeEnd(sink: Sink, out: seq<Chunk>, held: ByteString, rest: ByteString, ghost full: seq<Chunk>)
    returns (out': seq<Chunk>, v: Verdict)
    requires Going(sink, out, held, rest, full) && LF !in rest && |rest| <= READ_BUF_BYTES
    ensures v == Done ==> out' == full && sink.Holds(|out'|)
    ensures v == SinkFailed ==> Refused(sink, out', full)
    ensures v != Continue
  {
    assert rest + [] == rest;
    ToComePiece(held, rest, [], MAX_LINE_BYTES);
    ToComeEnd(held + rest, MAX_LINE_BYTES);
    assert out + [] == out;
    if |held + rest| == 0 {
      return out, Done;
    }
    var ok;
    assert Pieces(held + rest, MAX_LINE_BYTES, true) + [] == Pieces(held + rest, MAX_LINE_BYTES, true);
    out', ok := EmitPieces(sink, out, held + rest, true, [], full);
    v := if ok then Done else SinkFailed;
  }

  /** The chunks a stream makes. */
  function ChunksOf(input: ByteString): seq<Chunk> { CutAll(Split(input), MAX_LINE_BYTES) }

  /** They are the one tight way, within 16 KiB, to say exactly the stream's lines. */
  lemma ChunksSayTheLines(input: ByteString, cs: seq<Chunk>)
    ensures Join(ChunksOf(input)) == Split(input) && Bounded(ChunksOf(input), MAX_LINE_BYTES)
    ensures cs == ChunksOf(input) <==> Join(cs) == Split(input) && Tight(cs, 16384)
  {
    JoinCutAll(Split(input), MAX_LINE_BYTES);
    CutAllTight(Split(input), MAX_LINE_BYTES);
    if Tight(cs, MAX_LINE_BYTES) {
      TightIsCut(cs, MAX_LINE_BYTES);
    }
  }

  /** Chunk: whatever the sizes of the reads, the sink is given the stream's own chunks in order.
      All of them when it takes them all, and otherwise exactly as many as it takes. */
  method Chunks(r: Reader, sink: Sink) returns (out: seq<Chunk>, ok: bool)
    requires r.Valid()
    modifies r
    ensures
      var full := ChunksOf(old(r.Unread()));
      (ok <==> sink.Holds(|full|)) && out == (if ok then full else full[..sink.n])
    ensures ok ==> Join(out) == Split(old(r.Unread())) && Tight(out, MAX_LINE_BYTES)
    ensures Bounded(out, MAX_LINE_BYTES)
  {
    ghost var full := ChunksOf(r.Unread());
    ChunksSayTheLines(r.Unread(), full);
    out, ok := ChunkAll(r, sink, full);
  }

  /** The loop, against the chunks the stream makes. */
  method ChunkAll(r: Reader, sink: Sink, ghost full: seq<Chunk>) returns (out: seq<Chunk>, ok: bool)
    requires r.Valid() && full == ChunksOf(r.Unread())
    modifies r
    ensures if ok then out == full && sink.Holds(|out|) else Refused(sink, out, full)
  {
    var held: ByteString, v := [], Continue;
    out := [];
    assert [] + full == full;
    while v == Continue
      invariant r.Valid()
      invariant v == Continue ==> Going(sink, out, held, r.Unread(), full)
      invariant v == Done ==> out == full && sink.Holds(|out|)
      invariant v == SinkFailed ==> Refused(sink, out, full)
      decreases v == Continue, |r.Unread()|
    {
      out, held, v := Round(r, sink, out, held, full);
    }
    ok := v == Done;
  }

  function Concat(writes: seq<ByteString>): ByteString {
    if writes == [] then [] else Concat(writes[..|writes| - 1]) + writes[|writes| - 1]
  }

  /** The guest's line writer and the host's chunker say the same lines of the same stream, however
      the one's writes and the other's reads are cut. */
  method SameLines(writes: seq<ByteString>, maxLine: nat) returns (written: seq<Chunk>, chunked: seq<Chunk>)
    requires maxLine > 0
    ensures Bounded(written, maxLine) && FilledButLast(written, maxLine) && Tight(chunked, MAX_LINE_BYTES)
    ensures Join(written) == Split(Concat(writes))
    ensures Join(chunked) == Join(written)
  {
    var w := new LineWriter(maxLine);
    for i := 0 to |writes|
      invariant w.Valid() && w.maxLine == maxLine && w.input == Concat(writes[..i]) && fresh(w)
    {
      assert writes[..i + 1][..i] == writes[..i];
      var n := w.Write(writes[i]);
    }
    assert writes[..|writes|] == writes;
    w.Close();
    written := w.out;
    var r := new Reader(Concat(writes));
    var ok;
    chunked, ok := Chunks(r, NeverFails);
  }
}
