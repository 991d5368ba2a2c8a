/** The guest's line writer: a container's pipe bytes cut into tagged ring entries. */
module LineWriting {
  import opened Bytes
  import opened LogLines
  import opened LineCuts
  import opened LineEmits

  class LineWriter {
    const maxLine: nat
    var buf: ByteString
    /** The entries appended to the ring, oldest first. */
    var out: seq<Chunk>
    ghost var input: ByteString

    ghost predicate Valid()
      reads this
    {
      maxLine > 0 && Accounts(out, buf, input, maxLine)
    }

    constructor (maxLine: nat)
      requires maxLine > 0
      ensures Valid() && input == [] && out == [] && buf == [] && this.maxLine == maxLine
    {
      this.maxLine := maxLine;
      buf, out, input := [], [], [];
    }

    /** emitLocked. */
    method Emit(data: ByteString, partial: bool)
      modifies this`out
      ensures out == old(out) + [Chunk(data, partial)]
    {
      out := out + [Chunk(data, partial)];
    }

    /** emitLineLocked: one complete line, in pieces of at most maxLine, the last one full. */
    method EmitLine(line: ByteString)
      requires maxLine > 0
      modifies this`out
      ensures out == old(out) + Pieces(StripCR(line), maxLine, false)
    {
      var rest := StripCR(line);
      while |rest| > maxLine
        invariant out + Pieces(rest, maxLine, false) == old(out) + Pieces(StripCR(line), maxLine, false)
        decreases |rest|
      {
        ghost var more := Pieces(rest[maxLine..], maxLine, false);
        Regroup(out, [Chunk(rest[..maxLine], true)], more);
        Emit(rest[..maxLine], true);
        rest := rest[maxLine..];
      }
      Emit(rest, false);
    }

    /** Write: every complete line is appended, and a partial over the bound in pieces; the account
        of everything written so far is kept. */
    method Write(p: ByteString) returns (n: nat)
      requires Valid()
      modifies this
      ensures Valid() && input == old(input) + p && n == |p|
      ensures out == old(out) + Emits(old(buf) + p, maxLine) && buf == RestOf(old(buf) + p, maxLine)
    {
      WriteAccounts(out, buf, input, maxLine, p);
      buf, input := buf + p, input + p;
      TakeLines();
      TakeOverflow();
      return |p|;
    }

    /** Every complete line held is appended. */
    method TakeLines()
      requires maxLine > 0
      modifies this`buf, this`out
      ensures out + Overflow(buf, maxLine) == old(out) + Emits(old(buf), maxLine)
      ensures LeftOver(buf, maxLine) == RestOf(old(buf), maxLine) && LF !in buf
    {
      while true
        invariant out + Emits(buf, maxLine) == old(out) + Emits(old(buf), maxLine)
        invariant RestOf(buf, maxLine) == RestOf(old(buf), maxLine)
        decreases |buf|
      {
        var i := IndexOf(buf, LF);
        if i == |buf| {
          assert buf[..i] == buf;
          break;
        }
        Regroup(out, Pieces(StripCR(buf[..i]), maxLine, false), Emits(buf[i + 1..], maxLine));
        EmitLine(buf[..i]);
        buf := buf[i + 1..];
      }
    }

    /** A rest over the bound is appended in partial pieces. */
    method TakeOverflow()
      requires maxLine > 0
      modifies this`buf, this`out
      ensures out == old(out) + Overflow(old(buf), maxLine) && buf == LeftOver(old(buf), maxLine)
    {
      while |buf| > maxLine
        invariant out + Overflow(buf, maxLine) == old(out) + Overflow(old(buf), maxLine)
        invariant LeftOver(buf, maxLine) == LeftOver(old(buf), maxLine)
        decreases |buf|
      {
        Regroup(out, [Chunk(buf[..maxLine], true)], Overflow(buf[maxLine..], maxLine));
        Emit(buf[..maxLine], true);
        buf := buf[maxLine..];
      }
      assert out + [] == out;
    }

    /** Close flushes the unterminated rest, tagged partial. From then on the ring alone says
        what was written. */
    method Close()
      requires Valid()
      modifies this`buf, this`out
      ensures out == old(out) + (if old(buf) == [] then [] else [Chunk(old(buf), true)]) && buf == []
      ensures Join(out) == Split(input) && Bounded(out, maxLine) && FilledButLast(out, maxLine)
    {
      FlushAccounts(out, buf, input, maxLine);
      assert out + [] == out;
      if |buf| > 0 {
        Emit(buf, true);
        buf := [];
      }
    }
  }
}
