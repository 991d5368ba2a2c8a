/** The subscribers of a raw ring: what each was shown, and what of the history since it came
    it received, still has queued, or lost to a full queue. */
module ByteSubs {
  import opened ByteChunks
  import opened Fates

  /** A subscriber's channel and the bytes a full one cost it. */
  datatype Sub = Sub(queue: seq<ByteChunk>, capacity: nat, dropped: nat, shut: bool)

  /** The send that never blocks: a full queue drops the chunk and counts its bytes. */
  function Offer(s: Sub, c: ByteChunk): Sub {
    if |s.queue| < s.capacity then s.(queue := s.queue + [c]) else s.(dropped := s.dropped + |c.data|)
  }

  /** A subscriber's life: what it was shown on coming, what it received, the stretch of the
      history recorded while it was registered, and the fate of each chunk of that stretch. */
  datatype Life = Life(shown: seq<ByteChunk>, got: seq<ByteChunk>, from: nat, until: nat, fates: seq<bool>)

  /** Everything recorded in the stretch was received, waits in the queue, or is counted against
      the subscriber; what it has and will get is in order, with nothing repeated. */
  predicate Balances(stretch: seq<ByteChunk>, s: Sub, life: Life) {
    |life.fates| == |stretch| && life.got + s.queue == Pick(stretch, life.fates, true) &&
    s.dropped == Size(Pick(stretch, life.fates, false))
  }

  predicate Accounted(history: seq<ByteChunk>, s: Sub, life: Life, maxChunks: nat, maxBytes: nat) {
    life.from <= life.until <= |history| && |s.queue| <= s.capacity &&
    life.shown == Retained(history[..life.from], maxChunks, maxBytes) &&
    Balances(history[life.from..life.until], s, life)
  }

  /** The life of a registered subscriber after one more chunk. */
  function Lived(life: Life, s: Sub): Life {
    life.(until := life.until + 1, fates := life.fates + [|s.queue| < s.capacity])
  }

  lemma OfferBalances(stretch: seq<ByteChunk>, s: Sub, life: Life, c: ByteChunk)
    requires Balances(stretch, s, life)
    ensures Balances(stretch + [c], Offer(s, c), Lived(life, s))
  {
    var fate := |s.queue| < s.capacity;
    PickMore(stretch, life.fates, true, c, fate);
    PickMore(stretch, life.fates, false, c, fate);
    SizeAppend(Pick(stretch, life.fates, false), c);
    assert life.got + (s.queue + [c]) == life.got + s.queue + [c];
  }

  lemma StretchGrows(history: seq<ByteChunk>, c: ByteChunk, from: nat)
    requires from <= |history|
    ensures (history + [c])[..from] == history[..from]
    ensures (history + [c])[from..|history| + 1] == history[from..|history|] + [c]
  {
  }

  lemma OfferAccounted(history: seq<ByteChunk>, s: Sub, life: Life, maxChunks: nat, maxBytes: nat, c: ByteChunk)
    requires Accounted(history, s, life, maxChunks, maxBytes) && life.until == |history|
    ensures Accounted(history + [c], Offer(s, c), Lived(life, s), maxChunks, maxBytes)
  {
    OfferBalances(history[life.from..life.until], s, life, c);
    StretchGrows(history, c, life.from);
  }

  lemma AwayAccounted(history: seq<ByteChunk>, s: Sub, life: Life, maxChunks: nat, maxBytes: nat, c: ByteChunk)
    requires Accounted(history, s, life, maxChunks, maxBytes)
    ensures Accounted(history + [c], s, life, maxChunks, maxBytes)
  {
    assert (history + [c])[..life.from] == history[..life.from];
    assert (history + [c])[life.from..life.until] == history[life.from..life.until];
  }

  /** Everything of a ring its subscribers' account depends on. */
  datatype Board = Board(subs: set<nat>, channels: map<nat, Sub>, lives: map<nat, Life>, maxChunks: nat, maxBytes: nat)

  /** Subscriber id is accounted for; while registered its stretch reaches to the present. */
  predicate SubIs(history: seq<ByteChunk>, b: Board, id: nat) {
    (id in b.channels <==> id in b.lives) &&
    (id in b.channels ==> Accounted(history, b.channels[id], b.lives[id], b.maxChunks, b.maxBytes)) &&
    (id in b.subs ==> id in b.channels && !b.channels[id].shut && b.lives[id].until == |history|)
  }

  ghost predicate SubsAre(history: seq<ByteChunk>, b: Board) {
    forall id: nat :: SubIs(history, b, id)
  }

  /** The channels after a chunk was offered to those in `to`. */
  function Offered(channels: map<nat, Sub>, to: set<nat>, c: ByteChunk): map<nat, Sub> {
    map id | id in channels :: if id in to then Offer(channels[id], c) else channels[id]
  }

  /** The lives after it. */
  function Extended(lives: map<nat, Life>, channels: map<nat, Sub>, to: set<nat>): map<nat, Life> {
    map id | id in lives :: if id in to && id in channels then Lived(lives[id], channels[id]) else lives[id]
  }

  function Shut(channels: map<nat, Sub>, which: set<nat>): map<nat, Sub> {
    map id | id in channels :: if id in which then channels[id].(shut := true) else channels[id]
  }

  lemma ShutOne(channels: map<nat, Sub>, which: set<nat>, id: nat)
    requires id in channels
    ensures Shut(channels, which)[id := channels[id].(shut := true)] == Shut(channels, which + {id})
  {
  }

  lemma OfferOne(channels: map<nat, Sub>, to: set<nat>, id: nat, c: ByteChunk)
    requires id in channels && id !in to
    ensures Offered(channels, to, c)[id := Offer(channels[id], c)] == Offered(channels, to + {id}, c)
  {
  }

  /** The board after one more chunk. */
  function Recorded(b: Board, c: ByteChunk): Board {
    b.(channels := Offered(b.channels, b.subs, c), lives := Extended(b.lives, b.channels, b.subs))
  }

  lemma RecordedSubs(history: seq<ByteChunk>, b: Board, c: ByteChunk)
    requires SubsAre(history, b)
    ensures SubsAre(history + [c], Recorded(b, c))
  {
    forall id: nat
      ensures SubIs(history + [c], Recorded(b, c), id)
    {
      assert SubIs(history, b, id);
      if id in b.subs {
        OfferAccounted(history, b.channels[id], b.lives[id], b.maxChunks, b.maxBytes, c);
      } else if id in b.channels {
        AwayAccounted(history, b.channels[id], b.lives[id], b.maxChunks, b.maxBytes, c);
      }
    }
  }

  /** A new subscriber, registered unless the ring has ended. */
  function Joined(b: Board, id: nat, s: Sub, life: Life): Board {
    b.(subs := if s.shut then b.subs else b.subs + {id}, channels := b.channels[id := s], lives := b.lives[id := life])
  }

  lemma JoinedSubs(history: seq<ByteChunk>, b: Board, id: nat, s: Sub, life: Life)
    requires SubsAre(history, b) && id !in b.channels && s.queue == [] && s.dropped == 0
    requires life == Life(Retained(history, b.maxChunks, b.maxBytes), [], |history|, |history|, [])
    ensures SubsAre(history, Joined(b, id, s, life))
  {
    assert history[..|history|] == history && history[|history|..|history|] == [];
    forall i: nat
      ensures SubIs(history, Joined(b, id, s, life), i)
    {
      assert SubIs(history, b, i);
    }
  }

  /** A subscriber receives its oldest chunk. */
  function Taken(b: Board, id: nat): Board
    requires id in b.channels && id in b.lives && b.channels[id].queue != []
  {
    var s, life := b.channels[id], b.lives[id];
    b.(channels := b.channels[id := s.(queue := s.queue[1..])],
       lives := b.lives[id := life.(got := life.got + [s.queue[0]])])
  }

  lemma TakenSubs(history: seq<ByteChunk>, b: Board, id: nat)
    requires SubsAre(history, b) && id in b.channels && id in b.lives && b.channels[id].queue != []
    ensures SubsAre(history, Taken(b, id))
  {
    var s, life := b.channels[id], b.lives[id];
    forall i: nat
      ensures SubIs(history, Taken(b, id), i)
    {
      assert SubIs(history, b, i);
      assert life.got + [s.queue[0]] + s.queue[1..] == life.got + s.queue;
    }
  }

  /** Leaving, and the end of the ring, touch nobody's account. */
  lemma FewerSubs(history: seq<ByteChunk>, b: Board, subs: set<nat>, which: set<nat>)
    requires SubsAre(history, b) && subs <= b.subs && which !! subs
    ensures SubsAre(history, b.(subs := subs, channels := Shut(b.channels, which)))
  {
    forall i: nat
      ensures SubIs(history, b.(subs := subs, channels := Shut(b.channels, which)), i)
    {
      assert SubIs(history, b, i);
    }
  }

  /** In bytes: kept and lost add up. */
  lemma {:induction false} BytesAddUp(cs: seq<ByteChunk>, fates: seq<bool>)
    requires |cs| == |fates|
    ensures Size(Pick(cs, fates, true)) + Size(Pick(cs, fates, false)) == Size(cs)
  {
    if cs != [] {
      var n := |cs| - 1;
      BytesAddUp(cs[..n], fates[..n]);
      LastFate(cs, fates, true);
      LastFate(cs, fates, false);
      SizeAppend(cs[..n], cs[n]);
      SizeAppend(Pick(cs[..n], fates[..n], fates[n]), cs[n]);
      assert cs == cs[..n] + [cs[n]];
    }
  }

  lemma LastFate(cs: seq<ByteChunk>, fates: seq<bool>, want: bool)
    requires |cs| == |fates| > 0
    ensures
      var n := |cs| - 1;
      Pick(cs, fates, want) ==
      if fates[n] == want then Pick(cs[..n], fates[..n], want) + [cs[n]] else Pick(cs[..n], fates[..n], want)
  {
  }

  /** Received, queued and counted as dropped are exactly the bytes of the stretch. */
  lemma SubscriberBytes(history: seq<ByteChunk>, s: Sub, life: Life, maxChunks: nat, maxBytes: nat)
    requires Accounted(history, s, life, maxChunks, maxBytes)
    ensures Size(life.got) + Size(s.queue) + s.dropped == Size(history[life.from..life.until])
  {
    BytesAddUp(history[life.from..life.until], life.fates);
    SizeConcat(life.got, s.queue);
  }

  /** Nothing lost is everything kept, when no chunk is empty. */
  lemma {:induction false} NothingLost(cs: seq<ByteChunk>, fates: seq<bool>)
    requires |cs| == |fates| && NonEmpty(cs)
    ensures Size(Pick(cs, fates, false)) == 0 <==> Pick(cs, fates, true) == cs
  {
    if cs != [] {
      var n := |cs| - 1;
      NothingLost(cs[..n], fates[..n]);
      LastFate(cs, fates, true);
      LastFate(cs, fates, false);
      PickIsShort(cs[..n], fates[..n], true);
      SizeAppend(Pick(cs[..n], fates[..n], false), cs[n]);
      SameBut(Pick(cs[..n], fates[..n], true), cs);
    }
  }

  lemma SameBut<T>(a: seq<T>, b: seq<T>)
    requires b != []
    ensures a + [b[|b| - 1]] == b <==> a == b[..|b| - 1]
  {
    assert b == b[..|b| - 1] + [b[|b| - 1]];
    if a + [b[|b| - 1]] == b {
      assert (a + [b[|b| - 1]])[..|a|] == a;
    }
  }

  /** A subscriber's dropped count is zero exactly when the stretch reached it whole. */
  lemma NoDropExactly(history: seq<ByteChunk>, s: Sub, life: Life, maxChunks: nat, maxBytes: nat)
    requires Accounted(history, s, life, maxChunks, maxBytes) && NonEmpty(history)
    ensures s.dropped == 0 <==> life.got + s.queue == history[life.from..life.until]
  {
    NothingLost(history[life.from..life.until], life.fates);
  }

  /** What a subscriber that lost nothing was shown, received and has queued are together the
      newest bytes of the history up to its leaving: none twice, none missing in between. */
  lemma SeesNewestBytes(history: seq<ByteChunk>, s: Sub, life: Life, maxChunks: nat, maxBytes: nat)
    requires Accounted(history, s, life, maxChunks, maxBytes) && NonEmpty(history) && s.dropped == 0
    ensures EndsWith(Labelled(history[..life.until]), Labelled(life.shown + life.got + s.queue))
  {
    NoDropExactly(history, s, life, maxChunks, maxBytes);
    var before, stretch := history[..life.from], history[life.from..life.until];
    assert life.shown + life.got + s.queue == life.shown + stretch;
    assert history[..life.until] == before + stretch;
    LabelledConcat(life.shown, stretch);
    LabelledConcat(before, stretch);
    RetainedIsNewest(before, maxChunks, maxBytes);
    EndsLonger(Labelled(before), Labelled(life.shown), Labelled(stretch));
  }
}
