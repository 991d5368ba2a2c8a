/** What a byte stream says, line by line, and what a CRI log reader makes of tagged chunks. */
module LogLines {
  import opened Bytes

  const LF: Byte := 10
  const CR: Byte := 13

  /** Complete lines, and the unterminated rest. */
  datatype Lines = Lines(done: seq<ByteString>, tail: ByteString)

  const NOTHING := Lines([], [])

  /** One carriage return before the newline belongs to the terminator. */
  function StripCR(line: ByteString): ByteString {
    if line != [] && line[|line| - 1] == CR then line[..|line| - 1] else line
  }

  /** Read more bytes on top of what was read before. */
  function Feed(p: Lines, bs: ByteString): Lines {
    if bs == [] then p
    else
      var q := Feed(p, bs[..|bs| - 1]);
      var b := bs[|bs| - 1];
      if b == LF then Lines(q.done + [StripCR(q.tail)], []) else q.(tail := q.tail + [b])
  }

  /** The logical lines of a stream. */
  function Split(input: ByteString): Lines { Feed(NOTHING, input) }

  lemma {:induction false} FeedConcat(p: Lines, a: ByteString, b: ByteString)
    ensures Feed(p, a + b) == Feed(Feed(p, a), b)
    decreases |b|
  {
    if b == [] {
      assert a + b == a;
    } else {
      FeedConcat(p, a, b[..|b| - 1]);
      assert (a + b)[..|a + b| - 1] == a + b[..|b| - 1];
    }
  }

  lemma {:induction false} FeedWithoutNewline(p: Lines, bs: ByteString)
    requires LF !in bs
    ensures Feed(p, bs) == p.(tail := p.tail + bs)
  {
    if bs != [] {
      FeedWithoutNewline(p, bs[..|bs| - 1]);
      assert p.tail + bs[..|bs| - 1] + [bs[|bs| - 1]] == p.tail + bs;
    } else {
      assert p.tail + bs == p.tail;
    }
  }

  /** The next newline ends the line that was in progress. */
  lemma FeedLine(p: Lines, line: ByteString, rest: ByteString)
    requires LF !in line
    ensures Feed(p, line + [LF] + rest) == Feed(Lines(p.done + [StripCR(p.tail + line)], []), rest)
  {
    FeedConcat(p, line + [LF], rest);
    FeedWithoutNewline(p, line);
    assert (line + [LF])[..|line|] == line;
  }

  /** The stream put back together from lines that kept their carriage returns. */
  function Unsplit(raw: seq<ByteString>): ByteString {
    if raw == [] then [] else Unsplit(raw[..|raw| - 1]) + raw[|raw| - 1] + [LF]
  }

  /** The raw text before a newline and the line it makes: one carriage return at the very end is
      the terminator's, and nothing else goes. */
  predicate Terminates(raw: ByteString, line: ByteString) {
    raw == line + [CR] || (raw == line && (line == [] || line[|line| - 1] != CR))
  }

  lemma StripCRTerminates(raw: ByteString)
    ensures Terminates(raw, StripCR(raw))
  {
    if raw != [] {
      assert raw == raw[..|raw| - 1] + [raw[|raw| - 1]];
    }
  }

  /** Splitting loses nothing but each terminator: the input is its lines, each with its newline
      and possibly one carriage return, then the tail. */
  lemma {:induction false} SplitLosesNothing(input: ByteString) returns (raw: seq<ByteString>)
    ensures input == Unsplit(raw) + Split(input).tail
    ensures |raw| == |Split(input).done|
    ensures forall i :: 0 <= i < |raw| ==> LF !in raw[i] && Terminates(raw[i], Split(input).done[i])
    ensures LF !in Split(input).tail
  {
    if input == [] {
      return [];
    }
    var before, b := input[..|input| - 1], input[|input| - 1];
    var raw0 := SplitLosesNothing(before);
    var q := Split(before);
    assert input == before + [b];
    if b == LF {
      StripCRTerminates(q.tail);
      raw := raw0 + [q.tail];
      assert raw[..|raw0|] == raw0;
    } else {
      raw := raw0;
    }
  }

  /** One entry of a CRI log: partial continues its line, full ends it. */
  datatype Chunk = Chunk(data: ByteString, partial: bool)

  /** What a log reader reassembles. */
  function Join(cs: seq<Chunk>): Lines {
    if cs == [] then NOTHING
    else
      var p, c := Join(cs[..|cs| - 1]), cs[|cs| - 1];
      if c.partial then p.(tail := p.tail + c.data) else Lines(p.done + [p.tail + c.data], [])
  }

  lemma JoinAppend(cs: seq<Chunk>, c: Chunk)
    ensures Join(cs + [c]) ==
            var p := Join(cs);
            if c.partial then p.(tail := p.tail + c.data) else Lines(p.done + [p.tail + c.data], [])
  {
    assert (cs + [c])[..|cs|] == cs;
  }

  predicate Bounded(cs: seq<Chunk>, max: nat) {
    forall i :: 0 <= i < |cs| ==> |cs[i].data| <= max
  }

  /** Every partial chunk is filled to the bound. */
  predicate Filled(cs: seq<Chunk>, max: nat) {
    forall i :: 0 <= i < |cs| && cs[i].partial ==> |cs[i].data| == max
  }

  /** Every partial chunk is filled to the bound, unless nothing comes after it. */
  predicate FilledButLast(cs: seq<Chunk>, max: nat) {
    forall i :: 0 <= i < |cs| - 1 && cs[i].partial ==> |cs[i].data| == max
  }

  /** A carriage return before a newline is seen as long as the last piece is not empty. */
  lemma StripCRConcat(a: ByteString, b: ByteString)
    requires b != [] || a == [] || a[|a| - 1] != CR
    ensures StripCR(a + b) == a + StripCR(b)
  {
    if b == [] {
      assert a + b == a;
    } else {
      assert (a + b)[|a + b| - 1] == b[|b| - 1];
      if b[|b| - 1] == CR {
        assert (a + b)[..|a + b| - 1] == a + b[..|b| - 1];
      }
    }
  }
}
