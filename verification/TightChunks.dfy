/** The one tight way to say lines in chunks of a bounded size. */
module TightChunks {
  import opened Bytes
  import opened LogLines
  import opened LineCuts

  /** No chunk is over the bound, a line is broken only where a chunk is full and more of the line
      follows, and an unterminated rest is not empty. */
  predicate Tight(cs: seq<Chunk>, max: nat) {
    Bounded(cs, max) && forall i :: 0 <= i < |cs| && cs[i].partial ==> BreaksWell(cs, max, i)
  }

  predicate BreaksWell(cs: seq<Chunk>, max: nat, i: nat)
    requires i < |cs|
  {
    if i + 1 < |cs| then |cs[i].data| == max && cs[i + 1].data != [] else cs[i].data != []
  }

  /** A tight list after one that ends its last line is tight. */
  lemma TightConcat(a: seq<Chunk>, b: seq<Chunk>, max: nat)
    requires Tight(a, max) && Tight(b, max) && (a == [] || !a[|a| - 1].partial)
    ensures Tight(a + b, max)
  {
    forall i | 0 <= i < |a + b| && (a + b)[i].partial
      ensures BreaksWell(a + b, max, i)
    {
      if i < |a| {
        assert BreaksWell(a, max, i);
      } else {
        assert BreaksWell(b, max, i - |a|);
      }
    }
  }

  lemma TightCons(c: Chunk, cs: seq<Chunk>, max: nat)
    requires Tight(cs, max) && c.partial && |c.data| == max > 0 && cs != [] && cs[0].data != []
    ensures Tight([c] + cs, max)
  {
    forall i | 0 <= i < |[c] + cs| && ([c] + cs)[i].partial
      ensures BreaksWell([c] + cs, max, i)
    {
      if i > 0 {
        assert BreaksWell(cs, max, i - 1);
      }
    }
  }

  lemma {:induction false} PiecesTight(s: ByteString, max: nat, partial: bool)
    requires max > 0 && (partial ==> s != [])
    ensures
      var ps := Pieces(s, max, partial);
      Tight(ps, max) && ps != [] && ps[|ps| - 1].partial == partial && (s != [] ==> ps[0].data != [])
    decreases |s|
  {
    if |s| > max {
      PiecesTight(s[max..], max, partial);
      TightCons(Chunk(s[..max], true), Pieces(s[max..], max, partial), max);
    }
  }

  lemma {:induction false} CutLinesTight(done: seq<ByteString>, max: nat)
    requires max > 0
    ensures
      var cs := CutLines(done, max);
      Tight(cs, max) && (cs == [] || !cs[|cs| - 1].partial)
    decreases |done|
  {
    if done != [] {
      PiecesTight(done[0], max, false);
      CutLinesTight(done[1..], max);
      TightConcat(Pieces(done[0], max, false), CutLines(done[1..], max), max);
    }
  }

  /** The chunks of any lines are tight. */
  lemma CutAllTight(p: Lines, max: nat)
    requires max > 0
    ensures Tight(CutAll(p, max), max)
  {
    CutLinesTight(p.done, max);
    if p.tail != [] {
      PiecesTight(p.tail, max, true);
    }
    TightConcat(CutLines(p.done, max), CutTail(p.tail, max), max);
  }

  // And no other tight chunks say those lines

  lemma {:induction false} JoinAfterLine(line: ByteString, cs: seq<Chunk>)
    ensures JoinFrom(Lines([line], []), cs) == Lines([line] + Join(cs).done, Join(cs).tail)
  {
    if cs == [] {
      assert [line] + [] == [line];
    } else {
      var n := |cs| - 1;
      JoinAfterLine(line, cs[..n]);
      var q := Join(cs[..n]);
      assert [line] + q.done + [q.tail + cs[n].data] == [line] + (q.done + [q.tail + cs[n].data]);
    }
  }

  /** One more chunk keeps a prefix where it is. */
  lemma PrefixedStep(a: ByteString, q: Lines, q': Lines, c: Chunk)
    requires Prefixed(a, q, q')
    ensures Prefixed(a, JoinFrom(q, [c]), JoinFrom(q', [c]))
  {
    JoinFromOne(q, c);
    JoinFromOne(q', c);
    if q'.done == [] {
      assert a + q'.tail + c.data == a + (q'.tail + c.data);
      assert [a + (q'.tail + c.data)] + [] == [a + (q'.tail + c.data)];
      assert [q'.tail + c.data][1..] == [];
    } else if !c.partial {
      var line := q'.tail + c.data;
      assert (q'.done + [line])[1..] == q'.done[1..] + [line];
      assert [a + q'.done[0]] + q'.done[1..] + [line] == [a + q'.done[0]] + (q'.done[1..] + [line]);
    }
  }

  lemma PrefixedFirst(a: ByteString, c: Chunk)
    requires c.data != []
    ensures Prefixed(a, JoinFrom(Lines([], a), [c]), JoinFrom(NOTHING, [c]))
  {
    JoinFromOne(Lines([], a), c);
    JoinFromOne(NOTHING, c);
    assert [] + c.data == c.data && [] + [a + c.data] == [a + c.data] && [] + [c.data] == [c.data];
    assert [c.data][1..] == [] && [a + c.data] + [] == [a + c.data];
  }

  lemma {:induction false} JoinAfterPiece(a: ByteString, cs: seq<Chunk>)
    requires cs != [] && cs[0].data != []
    ensures Prefixed(a, JoinFrom(Lines([], a), cs), JoinFrom(NOTHING, cs))
    decreases |cs|
  {
    var n := |cs| - 1;
    if n == 0 {
      assert cs == [cs[0]];
      PrefixedFirst(a, cs[0]);
    } else {
      JoinAfterPiece(a, cs[..n]);
      assert cs == cs[..n] + [cs[n]];
      JoinFromConcat(Lines([], a), cs[..n], [cs[n]]);
      JoinFromConcat(NOTHING, cs[..n], [cs[n]]);
      PrefixedStep(a, JoinFrom(Lines([], a), cs[..n]), JoinFrom(NOTHING, cs[..n]), cs[n]);
    }
  }

  lemma TightRest(cs: seq<Chunk>, max: nat)
    requires Tight(cs, max) && cs != []
    ensures Tight(cs[1..], max)
  {
    forall i | 0 <= i < |cs[1..]| && cs[1..][i].partial
      ensures BreaksWell(cs[1..], max, i)
    {
      assert BreaksWell(cs, max, i + 1);
    }
  }

  lemma JoinCons(cs: seq<Chunk>)
    requires cs != []
    ensures Join(cs) == JoinFrom(JoinFrom(NOTHING, [cs[0]]), cs[1..]) && Join(cs[1..]) == JoinFrom(NOTHING, cs[1..])
  {
    assert cs == [cs[0]] + cs[1..];
    JoinIsFromNothing(cs);
    JoinIsFromNothing(cs[1..]);
    JoinFromConcat(NOTHING, [cs[0]], cs[1..]);
    JoinFromOne(NOTHING, cs[0]);
  }

  lemma CutAfterLine(line: ByteString, p: Lines, max: nat)
    requires max > 0 && |line| <= max
    ensures CutAll(Lines([line] + p.done, p.tail), max) == [Chunk(line, false)] + CutAll(p, max)
  {
    assert ([line] + p.done)[1..] == p.done;
    assert [Chunk(line, false)] + CutLines(p.done, max) + CutTail(p.tail, max)
        == [Chunk(line, false)] + (CutLines(p.done, max) + CutTail(p.tail, max));
  }

  /** A tight list is the chunks of the lines it says. */
  lemma {:induction false} TightIsCut(cs: seq<Chunk>, max: nat)
    requires max > 0 && Tight(cs, max)
    ensures cs == CutAll(Join(cs), max)
    decreases |cs|
  {
    if cs != [] {
      var c, rest := cs[0], cs[1..];
      TightRest(cs, max);
      TightIsCut(rest, max);
      JoinCons(cs);
      JoinFromOne(NOTHING, c);
      assert cs == [c] + rest && [] + c.data == c.data;
      if !c.partial {
        assert [] + [c.data] == [c.data];
        JoinAfterLine(c.data, rest);
        CutAfterLine(c.data, Join(rest), max);
      } else {
        assert BreaksWell(cs, max, 0);
        if rest != [] {
          JoinAfterPiece(c.data, rest);
          CutHeaded(c.data, Join(cs), Join(rest), max);
        } else {
          assert CutAll(Lines([], c.data), max) == [] + [Chunk(c.data, true)];
        }
      }
    }
  }
}
