/** Raw output as an attach replays it: the writes themselves, and what two bounds leave of them. */
module ByteChunks {
  import opened Bytes
  import LogRing
  type StreamKind = LogRing.StreamKind

  /** One write as the container made it; recorded ones are never empty. */
  datatype ByteChunk = ByteChunk(data: ByteString, kind: StreamKind)

  predicate NonEmpty(cs: seq<ByteChunk>) {
    forall i :: 0 <= i < |cs| ==> cs[i].data != []
  }

  function Size(cs: seq<ByteChunk>): nat {
    if cs == [] then 0 else |cs[0].data| + Size(cs[1..])
  }

  lemma {:induction false} SizeConcat(a: seq<ByteChunk>, b: seq<ByteChunk>)
    ensures Size(a + b) == Size(a) + Size(b)
  {
    if a == [] {
      assert a + b == b;
    } else {
      SizeConcat(a[1..], b);
      assert (a + b)[1..] == a[1..] + b;
    }
  }

  lemma SizeAppend(cs: seq<ByteChunk>, c: ByteChunk)
    ensures Size(cs + [c]) == Size(cs) + |c.data|
  {
    SizeConcat(cs, [c]);
    assert [c][1..] == [];
  }

  function LastChunks(cs: seq<ByteChunk>, n: nat): seq<ByteChunk> {
    if |cs| <= n then cs else cs[|cs| - n..]
  }

  /** The last m bytes, chunk by chunk: whole chunks go first, then the head is cut. */
  function LastBytes(cs: seq<ByteChunk>, m: nat): (r: seq<ByteChunk>)
    ensures |r| <= |cs|
  {
    if Size(cs) <= m then cs
    else
      var over := Size(cs) - m;
      if |cs[0].data| > over then CutHead(cs, over)
      else LastBytes(cs[1..], m)
  }

  /** What a ring with these bounds retains of everything ever appended to it. */
  function Retained(history: seq<ByteChunk>, maxChunks: nat, maxBytes: nat): seq<ByteChunk> {
    LastBytes(LastChunks(history, maxChunks), maxBytes)
  }

  /** A chunk's bytes, each with the stream it came from. */
  function Label(c: ByteChunk): seq<(StreamKind, Byte)> {
    seq(|c.data|, i requires 0 <= i < |c.data| => (c.kind, c.data[i]))
  }

  function Labelled(cs: seq<ByteChunk>): seq<(StreamKind, Byte)> {
    if cs == [] then [] else Label(cs[0]) + Labelled(cs[1..])
  }

  lemma {:induction false} LabelledSize(cs: seq<ByteChunk>)
    ensures |Labelled(cs)| == Size(cs)
  {
    if cs != [] {
      LabelledSize(cs[1..]);
    }
  }

  lemma Regroup<T>(a: seq<T>, b: seq<T>, c: seq<T>)
    ensures a + b + c == a + (b + c)
  {
  }

  /** tail is the end of all. */
  predicate EndsWith<T(==)>(all: seq<T>, tail: seq<T>) {
    |tail| <= |all| && all[|all| - |tail|..] == tail
  }

  lemma EndsLonger<T>(all: seq<T>, tail: seq<T>, more: seq<T>)
    requires EndsWith(all, tail)
    ensures EndsWith(all + more, tail + more)
  {
  }

  /** The head of cs cut to what its excess leaves. */
  function CutHead(cs: seq<ByteChunk>, over: nat): seq<ByteChunk>
    requires cs != [] && over < |cs[0].data|
  {
    [cs[0].(data := cs[0].data[over..])] + cs[1..]
  }

  lemma CutHeadIs(cs: seq<ByteChunk>, over: nat)
    requires cs != [] && over < |cs[0].data|
    ensures
      var cut := CutHead(cs, over);
      cut[0] == cs[0].(data := cs[0].data[over..]) && cut[1..] == cs[1..] && Size(cut) == Size(cs) - over
  {
    var cut := CutHead(cs, over);
    assert cut[1..] == cs[1..];
  }

  lemma CutHeadLabels(cs: seq<ByteChunk>, over: nat)
    requires cs != [] && over < |cs[0].data|
    ensures Labelled(cs) == Label(cs[0])[..over] + Labelled(CutHead(cs, over))
  {
    var cut := CutHead(cs, over);
    assert cut[1..] == cs[1..];
    assert Label(cs[0]) == Label(cs[0])[..over] + Label(cut[0]);
    Regroup(Label(cs[0])[..over], Label(cut[0]), Labelled(cs[1..]));
  }

  /** What a cut gives up stands in front of what it keeps. */
  lemma {:induction false} LastBytesGives(cs: seq<ByteChunk>, m: nat) returns (gone: seq<(StreamKind, Byte)>)
    ensures Labelled(cs) == gone + Labelled(LastBytes(cs, m))
  {
    if Size(cs) <= m {
      return [];
    }
    var over := Size(cs) - m;
    if |cs[0].data| > over {
      CutHeadLabels(cs, over);
      return Label(cs[0])[..over];
    }
    gone := LastBytesGives(cs[1..], m);
    Regroup(Label(cs[0]), gone, Labelled(LastBytes(cs[1..], m)));
    return Label(cs[0]) + gone;
  }

  lemma {:induction false} LastBytesSize(cs: seq<ByteChunk>, m: nat)
    ensures Size(LastBytes(cs, m)) == if Size(cs) <= m then Size(cs) else m
  {
    if Size(cs) > m {
      var over := Size(cs) - m;
      if |cs[0].data| > over {
        CutHeadIs(cs, over);
      } else {
        LastBytesSize(cs[1..], m);
      }
    }
  }

  /** Cutting chunks keeps exactly the newest m bytes, each still with its own label. */
  lemma LastBytesLabelled(cs: seq<ByteChunk>, m: nat)
    ensures
      var all := Labelled(cs);
      Labelled(LastBytes(cs, m)) == if |all| <= m then all else all[|all| - m..]
  {
    var gone := LastBytesGives(cs, m);
    LastBytesSize(cs, m);
    LabelledSize(cs);
    LabelledSize(LastBytes(cs, m));
  }

  lemma CutTwice(cs: seq<ByteChunk>, a: nat, b: nat)
    requires cs != [] && a + b < |cs[0].data|
    ensures CutHead(CutHead(cs, a), b) == CutHead(cs, a + b)
  {
    CutHeadIs(cs, a);
    assert cs[0].data[a..][b..] == cs[0].data[a + b..];
  }

  lemma Appended(cs: seq<ByteChunk>, c: ByteChunk)
    requires cs != []
    ensures (cs + [c])[0] == cs[0] && (cs + [c])[1..] == cs[1..] + [c] && Size(cs + [c]) == Size(cs) + |c.data|
  {
    SizeAppend(cs, c);
  }

  lemma CutHeadSurvives(cs: seq<ByteChunk>, c: ByteChunk, m: nat)
    requires cs != [] && m < Size(cs) && Size(cs) - m + |c.data| < |cs[0].data|
    ensures LastBytes(CutHead(cs, Size(cs) - m) + [c], m) == LastBytes(cs + [c], m)
  {
    var over := Size(cs) - m;
    Appended(cs, c);
    CutTwice(cs + [c], over, |c.data|);
    CutHeadIs(cs + [c], over);
    assert CutHead(cs, over) + [c] == CutHead(cs + [c], over);
  }

  lemma CutHeadGoes(cs: seq<ByteChunk>, c: ByteChunk, m: nat)
    requires cs != [] && m < Size(cs) && Size(cs) - m < |cs[0].data| <= Size(cs) - m + |c.data|
    ensures LastBytes(CutHead(cs, Size(cs) - m) + [c], m) == LastBytes(cs + [c], m)
  {
    var cut := CutHead(cs, Size(cs) - m);
    CutHeadIs(cs, Size(cs) - m);
    Appended(cs, c);
    Appended(cut, c);
  }

  /** Cutting what was already cut, after one more append, is cutting the whole. */
  lemma {:induction false} LastBytesAppend(cs: seq<ByteChunk>, c: ByteChunk, m: nat)
    ensures LastBytes(LastBytes(cs, m) + [c], m) == LastBytes(cs + [c], m)
  {
    if Size(cs) > m {
      if |cs[0].data| > Size(cs) - m {
        if |cs[0].data| > Size(cs) - m + |c.data| {
          CutHeadSurvives(cs, c, m);
        } else {
          CutHeadGoes(cs, c, m);
        }
      } else {
        LastBytesAppend(cs[1..], c, m);
        SizeAppend(cs, c);
        assert (cs + [c])[0] == cs[0] && (cs + [c])[1..] == cs[1..] + [c];
      }
    }
  }

  /** A cut either keeps every chunk but shortens the first, or does without the first. */
  lemma LastBytesHead(cs: seq<ByteChunk>, m: nat)
    requires cs != []
    ensures
      var r := LastBytes(cs, m);
      if |r| == |cs| then r[1..] == cs[1..] else r == LastBytes(cs[1..], m)
  {
  }

  /** Evicting after every append gives the closed form of the whole history. */
  lemma RetainedAppend(history: seq<ByteChunk>, c: ByteChunk, maxChunks: nat, maxBytes: nat)
    requires maxChunks > 0
    ensures Retained(Retained(history, maxChunks, maxBytes) + [c], maxChunks, maxBytes)
            == Retained(history + [c], maxChunks, maxBytes)
  {
    var x := LastChunks(history, maxChunks);
    var r := LastBytes(x, maxBytes);
    if |history| < maxChunks {
      assert x == history && LastChunks(r + [c], maxChunks) == r + [c];
      LastBytesAppend(x, c, maxBytes);
    } else {
      assert LastChunks(history + [c], maxChunks) == x[1..] + [c];
      LastBytesHead(x, maxBytes);
      if |r| == |x| {
        assert LastChunks(r + [c], maxChunks) == r[1..] + [c];
      } else {
        assert LastChunks(r + [c], maxChunks) == r + [c];
        LastBytesAppend(x[1..], c, maxBytes);
      }
    }
  }

  /** evictLocked. */
  method EvictChunks(held: seq<ByteChunk>, size: nat, maxChunks: nat, maxBytes: nat)
    returns (chunks: seq<ByteChunk>, bytes: nat)
    requires size == Size(held)
    ensures chunks == Retained(held, maxChunks, maxBytes) && bytes == Size(chunks)
  {
    chunks, bytes := held, size;
    while |chunks| > maxChunks
      invariant bytes == Size(chunks) && LastChunks(chunks, maxChunks) == LastChunks(held, maxChunks)
      decreases |chunks|
    {
      bytes := bytes - |chunks[0].data|;
      chunks := chunks[1..];
    }
    while bytes > maxBytes && |chunks| > 0
      invariant bytes == Size(chunks) && LastBytes(chunks, maxBytes) == Retained(held, maxChunks, maxBytes)
      decreases |chunks|
    {
      var over, head := bytes - maxBytes, chunks[0];
      if |head.data| > over {
        chunks := [head.(data := head.data[over..])] + chunks[1..];
        bytes := bytes - over;
        return;
      }
      bytes := bytes - |head.data|;
      chunks := chunks[1..];
    }
  }

  lemma {:induction false} LabelledConcat(a: seq<ByteChunk>, b: seq<ByteChunk>)
    ensures Labelled(a + b) == Labelled(a) + Labelled(b)
  {
    if a == [] {
      assert a + b == b;
    } else {
      LabelledConcat(a[1..], b);
      Regroup(Label(a[0]), Labelled(a[1..]), Labelled(b));
      assert (a + b)[0] == a[0] && (a + b)[1..] == a[1..] + b;
    }
  }

  lemma CutEnds(gone: seq<ByteChunk>, last: seq<ByteChunk>, m: nat)
    ensures EndsWith(Labelled(gone + last), Labelled(LastBytes(last, m)))
  {
    var more := LastBytesGives(last, m);
    LabelledConcat(gone, last);
    Regroup(Labelled(gone), more, Labelled(LastBytes(last, m)));
  }

  /** What is retained is the newest bytes of the history, each with its own label: of the newest
      maxChunks writes, every byte if there are no more than maxBytes, and otherwise that many. */
  lemma RetainedIsNewest(history: seq<ByteChunk>, maxChunks: nat, maxBytes: nat)
    ensures EndsWith(Labelled(history), Labelled(Retained(history, maxChunks, maxBytes)))
    ensures
      var writes := if |history| <= maxChunks then history else history[|history| - maxChunks..];
      var all := Labelled(writes);
      Labelled(Retained(history, maxChunks, maxBytes)) == (if |all| <= maxBytes then all else all[|all| - maxBytes..])
    ensures |Retained(history, maxChunks, maxBytes)| <= maxChunks
  {
    LastBytesLabelled(LastChunks(history, maxChunks), maxBytes);
    var last := LastChunks(history, maxChunks);
    var gone := history[..|history| - |last|];
    assert gone + last == history;
    CutEnds(gone, last, maxBytes);
  }
}
