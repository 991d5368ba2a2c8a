/** The exec shim's circular output buffer, refining a plain queue that drops its oldest bytes. */
module ExecRing {
  import opened Bytes

  /** What became of a byte that left the buffer. */
  datatype Fate = ReadOut | DroppedOut

  function CountDropped(fates: seq<Fate>): nat {
    if fates == [] then 0 else CountDropped(fates[..|fates| - 1]) + if fates[|fates| - 1].DroppedOut? then 1 else 0
  }

  function Repeat(f: Fate, n: nat): seq<Fate> { seq(n, _ => f) }

  lemma {:induction false} CountAppend(fates: seq<Fate>, f: Fate, n: nat)
    ensures CountDropped(fates + Repeat(f, n)) == CountDropped(fates) + if f.DroppedOut? then n else 0
  {
    if n > 0 {
      CountAppend(fates, f, n - 1);
      assert (fates + Repeat(f, n))[..|fates| + n - 1] == fates + Repeat(f, n - 1);
    } else {
      assert fates + Repeat(f, n) == fates;
    }
  }

  /** The bytes of bs whose fate was to be read. */
  function Delivered(bs: ByteString, fates: seq<Fate>): ByteString
    requires |fates| <= |bs|
  {
    if fates == [] then []
    else
      var n := |fates| - 1;
      Delivered(bs, fates[..n]) + if fates[n].ReadOut? then [bs[n]] else []
  }

  lemma {:induction false} DeliveredLonger(a: ByteString, b: ByteString, fates: seq<Fate>)
    requires |fates| <= |a|
    ensures Delivered(a + b, fates) == Delivered(a, fates)
  {
    if fates != [] {
      DeliveredLonger(a, b, fates[..|fates| - 1]);
    }
  }

  lemma {:induction false} DeliveredMore(bs: ByteString, fates: seq<Fate>, f: Fate, n: nat)
    requires |fates| + n <= |bs|
    ensures Delivered(bs, fates + Repeat(f, n)) ==
            Delivered(bs, fates) + if f.ReadOut? then bs[|fates|..|fates| + n] else []
  {
    if n > 0 {
      DeliveredMore(bs, fates, f, n - 1);
      assert (fates + Repeat(f, n))[..|fates| + n - 1] == fates + Repeat(f, n - 1);
    } else {
      assert fates + Repeat(f, n) == fates;
    }
  }

  /** x modulo m, for x below 2m. */
  function Wrap(x: nat, m: nat): nat
    requires x < 2 * m
  {
    if x < m then x else x - m
  }

  lemma ModIsWrap(x: nat, m: nat)
    requires x < 2 * m
    ensures x % m == Wrap(x, m)
  {
    if x >= m {
      assert x == 1 * m + (x - m);
    }
  }

  /** n bytes from start on, wrapping at the end of buf. */
  function Circle(buf: ByteString, start: nat, n: nat): (c: ByteString)
    requires n <= |buf| && (start < |buf| || n == 0)
    ensures |c| == n && forall i :: 0 <= i < n ==> c[i] == buf[Wrap(start + i, |buf|)]
  {
    seq(n, i requires 0 <= i < n => buf[Wrap(start + i, |buf|)])
  }

  /** Skipping k bytes of a circle. */
  lemma CircleSkip(buf: ByteString, start: nat, n: nat, k: nat)
    requires k <= n <= |buf| && start < |buf|
    ensures Circle(buf, Wrap(start + k, |buf|), n - k) == Circle(buf, start, n)[k..]
  {
    var whole, part := Circle(buf, start, n), Circle(buf, Wrap(start + k, |buf|), n - k);
    forall i | 0 <= i < n - k
      ensures part[i] == whole[k..][i]
    {
      assert whole[k..][i] == whole[k + i] == buf[Wrap(start + (k + i), |buf|)];
    }
  }

  /** buf' is buf with p copied in from `at`, first up to the end and then from the front. */
  predicate Copied(buf: ByteString, at: nat, p: ByteString, buf': ByteString) {
    |buf'| == |buf| && at < |buf| && |p| <= |buf| &&
    forall j :: 0 <= j < |buf| ==>
      buf'[j] == if at <= j < at + |p| then p[j - at]
                 else if j < at + |p| - |buf| then p[j + |buf| - at]
                 else buf[j]
  }

  /** Copying p in right after a circle extends it by p. */
  lemma CircleWrite(buf: ByteString, start: nat, n: nat, p: ByteString, buf': ByteString)
    requires n + |p| <= |buf| && start < |buf| && Copied(buf, Wrap(start + n, |buf|), p, buf')
    ensures Circle(buf', start, n + |p|) == Circle(buf, start, n) + p
  {
    var before, after := Circle(buf, start, n), Circle(buf', start, n + |p|);
    forall i | 0 <= i < n + |p|
      ensures after[i] == (before + p)[i]
    {
      assert after[i] == buf'[Wrap(start + i, |buf|)];
    }
  }

  datatype WriteResult = Wrote(n: nat) | ClosedPipe | Panicked
  datatype ReadResult = Got(data: ByteString) | EndOfFile

  const FIRST_SIZE := 4096

  function Min(a: int, b: int): int { if a < b then a else b }
  function Max(a: int, b: int): int { if a < b then b else a }

  class Ring {
    var buf: array<Byte>
    var start: nat
    var n: nat
    const limit: int
    var closed: bool
    var dropped: nat
    var pending: nat
    /** Every byte accepted, and what became of each that is no longer buffered. */
    ghost var written: ByteString
    ghost var fates: seq<Fate>

    ghost predicate Shaped()
      reads this, buf
    {
      n <= buf.Length <= Max(limit, 0) && (if buf.Length == 0 then start == 0 else start < buf.Length)
    }

    /** The buffered bytes, oldest first. */
    ghost function Contents(): ByteString
      requires Shaped()
      reads this, buf
    {
      Circle(buf[..], start, n)
    }

    /** Buffered is the newest part of what was written; everything older was read or dropped. */
    ghost predicate Valid()
      reads this, buf
    {
      Shaped() && |fates| + n == |written| && Contents() == written[|fates|..] &&
      dropped == CountDropped(fates) && pending <= dropped
    }

    constructor (limit: int)
      ensures Valid() && fresh(buf) && buf.Length == 0
      ensures this.limit == limit && written == [] && !closed && dropped == 0
    {
      this.limit := limit;
      buf := new Byte[0];
      start, n, closed, dropped, pending := 0, 0, false, 0, 0;
      written, fates := [], [];
    }

    /** grow: at least `need` bytes, contents moved to the front of a new buffer. */
    method Grow(need: nat)
      requires Shaped() && need <= limit
      modifies this`buf, this`start
      ensures Shaped() && Contents() == old(Contents()) && need <= buf.Length
      ensures buf == old(buf) || fresh(buf)
      ensures old(buf.Length) > 0 || need > 0 ==> buf.Length > 0
      ensures need <= old(buf.Length) ==> buf == old(buf)
    {
      if need <= buf.Length {
        return;
      }
      var size := Min(Max(need, Max(2 * buf.Length, FIRST_SIZE)), limit);
      var nb := new Byte[size];
      ghost var was := Contents();
      var k := Min(n, buf.Length - start);
      forall i | 0 <= i < k {
        nb[i] := buf[start + i];
      }
      forall i | 0 <= i < n - k {
        nb[k + i] := buf[i];
      }
      assert Circle(nb[..], 0, n) == was;
      buf, start := nb, 0;
    }

    /** The two copies at the end of Write: q after the buffered bytes, wrapping once. */
    method Put(q: ByteString)
      requires Shaped() && 0 < buf.Length && n + |q| <= buf.Length
      modifies this`n, buf
      ensures Shaped() && Contents() == old(Contents()) + q
    {
      ModIsWrap(start + n, buf.Length);
      var at := (start + n) % buf.Length;
      var k := Min(|q|, buf.Length - at);
      forall i | 0 <= i < k {
        buf[at + i] := q[i];
      }
      forall i | 0 <= i < |q| - k {
        buf[i] := q[k + i];
      }
      assert Copied(old(buf[..]), at, q, buf[..]);
      CircleWrite(old(buf[..]), start, n, q, buf[..]);
      n := n + |q|;
    }

    /** Move past the k oldest buffered bytes. */
    method Advance(k: nat)
      requires Shaped() && k <= n && 0 < buf.Length
      modifies this`start, this`n
      ensures Shaped() && Contents() == old(Contents())[k..] && n == old(n) - k
    {
      CircleSkip(buf[..], start, n, k);
      ModIsWrap(start + k, buf.Length);
      start, n := (start + k) % buf.Length, n - k;
    }

    /** The first half of Write: drop what cannot stay, and leave in q what of p can. */
    method MakeRoom(p: ByteString) returns (q: ByteString, over: nat)
      requires Shaped() && limit > 0
      modifies this`buf, this`start, this`n
      ensures Shaped() && over == Max(old(n) + |p| - limit, 0) && n + |q| == old(n) + |p| - over
      ensures Contents() + q == (old(Contents()) + p)[over..]
      ensures (buf == old(buf) || fresh(buf)) && (q == [] ==> buf.Length == old(buf.Length))
    {
      q := p;
      over := Max(n + |p| - limit, 0);
      if |p| >= limit {
        assert p[|p| - limit..] == (Contents() + p)[over..];
        q := p[|p| - limit..];
        Grow(limit);
        start, n := 0, 0;
        assert Contents() + q == q;
      } else if over > 0 {
        assert (Contents() + p)[over..] == Contents()[over..] + p;
        Advance(over);
      }
    }

    /** Write never blocks: past the limit it drops the oldest bytes, counting them. It panics
        exactly when the buffer would have no length to wrap at: a limit that is not positive, or
        an empty write before the first byte. */
    method Write(p: ByteString) returns (r: WriteResult)
      requires Valid()
      modifies this, buf
      ensures r == ClosedPipe <==> old(closed)
      ensures r == Panicked <==> !old(closed) && (limit <= 0 || (p == [] && old(buf.Length) == 0))
      ensures r == ClosedPipe ==> Valid() && written == old(written) && fates == old(fates)
      ensures r.Wrote? ==> Valid() && r.n == |p| && !closed && (buf == old(buf) || fresh(buf))
      ensures r.Wrote? ==> written == old(written) + p && n == Min(old(n) + |p|, limit)
      ensures r.Wrote? ==>
        var over := Max(old(n) + |p| - limit, 0);
        fates == old(fates) + Repeat(DroppedOut, over) && pending == old(pending) + over &&
        Delivered(written, fates) == old(Delivered(written, fates))
    {
      if closed {
        return ClosedPipe;
      }
      if limit <= 0 {
        // The tail of p is out of range, or the offset is taken modulo an empty buffer.
        return Panicked;
      }
      var q, over := MakeRoom(p);
      dropped, pending := dropped + over, pending + over;
      Grow(n + |q|);
      if buf.Length == 0 {
        return Panicked;
      }
      Put(q);
      Account(p, over);
      return Wrote(|p|);
    }

    /** The ledger of a write: p accepted, the oldest `over` bytes gone. */
    ghost method Account(p: ByteString, over: nat)
      requires Shaped() && |fates| <= |written| && over <= |written| - |fates| + |p|
      requires Contents() == (written[|fates|..] + p)[over..]
      requires dropped == CountDropped(fates) + over && pending <= dropped
      modifies this`written, this`fates
      ensures Valid() && written == old(written) + p && fates == old(fates) + Repeat(DroppedOut, over)
      ensures Delivered(written, fates) == old(Delivered(written, fates))
    {
      CountAppend(fates, DroppedOut, over);
      DeliveredLonger(written, p, fates);
      DeliveredMore(written + p, fates, DroppedOut, over);
      assert (written[|fates|..] + p)[over..] == (written + p)[|fates| + over..];
      written, fates := written + p, fates + Repeat(DroppedOut, over);
    }

    /** Read, once there is data or the end: the oldest bytes, as many as fit and lie together. */
    method Read(room: nat) returns (r: ReadResult)
      requires Valid() && (n > 0 || closed)
      modifies this`start, this`n, this`fates
      ensures Valid() && (r == EndOfFile <==> old(n) == 0)
      ensures r.Got? ==> |r.data| == Min(room, Min(old(n), buf.Length - old(start))) && n == old(n) - |r.data|
      ensures r.Got? ==> r.data <= old(Contents()) && fates == old(fates) + Repeat(ReadOut, |r.data|)
      ensures r.Got? ==> Delivered(written, fates) == old(Delivered(written, fates)) + r.data
      ensures r == EndOfFile ==> fates == old(fates)
    {
      if n == 0 {
        return EndOfFile;
      }
      var end := Min(start + n, buf.Length);
      var k := Min(room, end - start);
      var data := buf[start..start + k];
      assert data == Contents()[..k];
      Advance(k);
      AccountRead(data);
      return Got(data);
    }

    /** The ledger of a read: the oldest bytes went to the reader. */
    ghost method AccountRead(data: ByteString)
      requires Shaped() && |fates| + |data| + n == |written| && data == written[|fates|..][..|data|]
      requires Contents() == written[|fates|..][|data|..] && dropped == CountDropped(fates) && pending <= dropped
      modifies this`fates
      ensures Valid() && fates == old(fates) + Repeat(ReadOut, |data|)
      ensures Delivered(written, fates) == old(Delivered(written, fates)) + data
    {
      CountAppend(fates, ReadOut, |data|);
      DeliveredMore(written, fates, ReadOut, |data|);
      assert data == written[|fates|..|fates| + |data|];
      assert written[|fates|..][|data|..] == written[|fates| + |data|..];
      fates := fates + Repeat(ReadOut, |data|);
    }

    method Close()
      requires Valid()
      modifies this`closed
      ensures Valid() && closed
    {
      closed := true;
    }

    /** takeDropped: the drops since the last call; the total keeps growing. */
    method TakeDropped() returns (k: nat)
      requires Valid()
      modifies this`pending
      ensures Valid() && k == old(pending) && pending == 0
    {
      k, pending := pending, 0;
    }

    /** Conservation: every byte written was read, is buffered, or was dropped. */
    lemma Conservation()
      requires Valid()
      ensures |written| == |Delivered(written, fates)| + n + dropped
    {
      DeliveredCount(written, fates);
    }
  }

  lemma {:induction false} DeliveredCount(bs: ByteString, fates: seq<Fate>)
    requires |fates| <= |bs|
    ensures |Delivered(bs, fates)| + CountDropped(fates) == |fates|
  {
    if fates != [] {
      DeliveredCount(bs, fates[..|fates| - 1]);
    }
  }

  /** The panic is real with a sound limit too: an empty write, first of all. */
  method EmptyFirstWritePanics() returns (r: WriteResult)
    ensures r == Panicked
  {
    var ring := new Ring(10);
    r := ring.Write([]);
  }
}
