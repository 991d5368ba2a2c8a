/** The raw side of a container's output: recent writes, kept verbatim, that any number of attached
    clients follow. */
module ByteRings {
  import opened Bytes
  import opened Ids
  import opened ByteChunks
  import opened ByteSubs
  import opened Fates

  const DEFAULT_RING_BYTES := 0x1_0000
  const DEFAULT_RING_CHUNKS := 4096
  const DEFAULT_SUB_QUEUE := 512

  class ByteRing {
    const maxBytes: nat
    const maxChunks: nat
    var chunks: seq<ByteChunk>
    var bytes: nat
    var channels: map<nat, Sub> // every subscription ever made, by number
    var subs: set<nat>          // those registered now
    var closed: bool
    ghost var history: seq<ByteChunk>
    ghost var lives: map<nat, Life>

    ghost function TheBoard(): Board
      reads this`channels, this`subs, this`lives
    {
      Board(subs, channels, lives, maxChunks, maxBytes)
    }

    ghost predicate Valid()
      reads this
    {
      maxChunks > 0 && maxBytes > 0 && NonEmpty(history) && (closed ==> subs == {}) &&
      chunks == Retained(history, maxChunks, maxBytes) && bytes == Size(chunks) && SubsAre(history, TheBoard())
    }

    /** NewByteRing: non-positive bounds take the defaults. */
    constructor (maxBytes: int, maxChunks: int)
      ensures Valid() && history == [] && channels == map[] && !closed
      ensures this.maxBytes == if maxBytes <= 0 then DEFAULT_RING_BYTES else maxBytes
      ensures this.maxChunks == if maxChunks <= 0 then DEFAULT_RING_CHUNKS else maxChunks
    {
      this.maxBytes := if maxBytes <= 0 then DEFAULT_RING_BYTES else maxBytes;
      this.maxChunks := if maxChunks <= 0 then DEFAULT_RING_CHUNKS else maxChunks;
      chunks, bytes, channels, subs, closed := [], 0, map[], {}, false;
      history, lives := [], map[];
    }

    /** Append: record, evict, and offer to every subscriber without blocking. An empty write
        and a write after the end change nothing. */
    method Append(kind: StreamKind, p: ByteString)
      requires Valid()
      modifies this`chunks, this`bytes, this`channels, this`history, this`lives
      ensures Valid()
      ensures p == [] || closed ==> history == old(history) && TheBoard() == old(TheBoard())
      ensures p != [] && !closed ==>
                history == old(history) + [ByteChunk(p, kind)] &&
                TheBoard() == Recorded(old(TheBoard()), ByteChunk(p, kind))
    {
      if |p| == 0 || closed {
        return;
      }
      var chunk := ByteChunk(p, kind);
      Keep(chunk);
      RecordedSubs(history, TheBoard(), chunk);
      ghost var board := Recorded(TheBoard(), chunk);
      FanOut(chunk);
      history, lives := history + [chunk], board.lives;
    }

    method Keep(chunk: ByteChunk)
      requires maxChunks > 0 && chunks == Retained(history, maxChunks, maxBytes) && bytes == Size(chunks)
      modifies this`chunks, this`bytes
      ensures chunks == Retained(history + [chunk], maxChunks, maxBytes) && bytes == Size(chunks)
    {
      RetainedAppend(history, chunk, maxChunks, maxBytes);
      SizeAppend(chunks, chunk);
      chunks, bytes := EvictChunks(chunks + [chunk], bytes + |chunk.data|, maxChunks, maxBytes);
    }

    method FanOut(chunk: ByteChunk)
      requires SubsAre(history, TheBoard())
      modifies this`channels
      ensures channels == Offered(old(channels), subs, chunk)
    {
      forall id | id in subs
        ensures id in channels
      {
        assert SubIs(history, TheBoard(), id);
      }
      var todo := subs;
      ghost var done: set<nat> := {};
      while todo != {}
        invariant todo !! done && todo + done == subs <= channels.Keys
        invariant channels == Offered(old(channels), done, chunk)
        decreases |todo|
      {
        var id :| id in todo;
        OfferOne(old(channels), done, id, chunk);
        channels := channels[id := Offer(channels[id], chunk)];
        todo, done := todo - {id}, done + {id};
      }
    }

    /** Subscribe: what is retained now, and the registration, in one critical section. */
    method Subscribe(queue: int) returns (id: nat, snapshot: seq<ByteChunk>)
      requires Valid()
      modifies this`channels, this`subs, this`lives
      ensures Valid() && id !in old(channels) && snapshot == Retained(history, maxChunks, maxBytes)
      ensures TheBoard() ==
              Joined(old(TheBoard()), id, Sub([], if queue <= 0 then DEFAULT_SUB_QUEUE else queue, 0, closed),
                     Life(snapshot, [], |history|, |history|, []))
    {
      id :| id !in channels by {
        FreshId(channels.Keys);
      }
      var s := Sub([], if queue <= 0 then DEFAULT_SUB_QUEUE else queue, 0, closed);
      snapshot := chunks;
      ghost var life := Life(snapshot, [], |history|, |history|, []);
      JoinedSubs(history, TheBoard(), id, s, life);
      channels, lives := channels[id := s], lives[id := life];
      if !closed {
        subs := subs + {id};
      }
    }

    /** A client takes the oldest queued chunk. */
    method Receive(id: nat) returns (c: ByteChunk)
      requires Valid() && id in channels && channels[id].queue != []
      modifies this`channels, this`lives
      ensures Valid() && id in old(lives) && TheBoard() == Taken(old(TheBoard()), id) && c == old(channels[id].queue[0])
    {
      assert SubIs(history, TheBoard(), id);
      TakenSubs(history, TheBoard(), id);
      c := channels[id].queue[0];
      lives := lives[id := lives[id].(got := lives[id].got + [c])];
      channels := channels[id := channels[id].(queue := channels[id].queue[1..])];
    }

    /** ByteSubscription.Close: the client leaves. Idempotent. */
    method Unsubscribe(id: nat)
      requires Valid()
      modifies this`subs
      ensures Valid() && subs == old(subs) - {id}
    {
      FewerSubs(history, TheBoard(), subs - {id}, {});
      assert Shut(channels, {}) == channels;
      subs := subs - {id};
    }

    /** Close ends every subscription; what is retained and what is queued survive it. */
    method Close()
      requires Valid()
      modifies this`closed, this`subs, this`channels
      ensures Valid() && closed
      ensures old(closed) ==> TheBoard() == old(TheBoard())
      ensures !old(closed) ==> subs == {} && channels == Shut(old(channels), old(subs))
    {
      if closed {
        return;
      }
      closed := true;
      FewerSubs(history, TheBoard(), {}, subs);
      forall id | id in subs
        ensures id in channels
      {
        assert SubIs(history, TheBoard(), id);
      }
      EndAll();
    }

    method EndAll()
      requires subs <= channels.Keys
      modifies this`subs, this`channels
      ensures subs == {} && channels == Shut(old(channels), old(subs))
    {
      ghost var done: set<nat> := {};
      while subs != {}
        invariant subs <= old(subs) <= channels.Keys && done !! subs && done + subs == old(subs)
        invariant channels == Shut(old(channels), done)
        decreases |subs|
      {
        var id :| id in subs;
        ShutOne(old(channels), done, id);
        channels := channels[id := channels[id].(shut := true)];
        subs, done := subs - {id}, done + {id};
      }
    }

    /** In every state, whatever was appended, received, closed or unsubscribed: what a subscriber
        was shown is what was retained when it came; every chunk recorded while it was registered
        was received, is queued, or is in its dropped count, which is zero exactly when nothing of
        that stretch is missing; and then all it saw is the newest bytes, once each and in order. */
    lemma SubscriberAccounted(id: nat)
      requires Valid() && id in channels
      ensures id in lives
      ensures
        var s, life := channels[id], lives[id];
        life.from <= life.until <= |history| && (id in subs ==> life.until == |history|) &&
        life.shown == Retained(history[..life.from], maxChunks, maxBytes) &&
        |life.fates| == life.until - life.from &&
        life.got + s.queue == Pick(history[life.from..life.until], life.fates, true) &&
        s.dropped == Size(Pick(history[life.from..life.until], life.fates, false)) &&
        Size(life.got) + Size(s.queue) + s.dropped == Size(history[life.from..life.until]) &&
        (s.dropped == 0 <==> life.got + s.queue == history[life.from..life.until]) &&
        (s.dropped == 0 ==> EndsWith(Labelled(history[..life.until]), Labelled(life.shown + life.got + s.queue)))
    {
      assert SubIs(history, TheBoard(), id);
      var s, life := channels[id], lives[id];
      SubscriberBytes(history, s, life, maxChunks, maxBytes);
      NoDropExactly(history, s, life, maxChunks, maxBytes);
      if s.dropped == 0 {
        SeesNewestBytes(history, s, life, maxChunks, maxBytes);
      }
    }
  }
}
