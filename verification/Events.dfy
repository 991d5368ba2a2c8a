/** The container-event fan-out: each container's last transition is retained and replayed. */
module Events {
  import opened Fates
  import opened Ids
  import opened NameOrder

  datatype Outcome = Started(pid: int) | Exited(exitCode: int, signal: int, oomKilled: bool)

  datatype Event = Event(container: string, at: int, outcome: Outcome)

  /** What a reader knows of the pod after folding events: the last one of each container. An
      event without a container name changes nothing. */
  function Learn(known: map<string, Event>, e: Event): map<string, Event> {
    if e.container == "" then known else known[e.container := e]
  }

  function FoldFrom(known: map<string, Event>, es: seq<Event>): map<string, Event> {
    if es == [] then known else Learn(FoldFrom(known, es[..|es| - 1]), es[|es| - 1])
  }

  function Fold(es: seq<Event>): map<string, Event> { FoldFrom(map[], es) }

  lemma {:induction false} FoldConcat(known: map<string, Event>, a: seq<Event>, b: seq<Event>)
    ensures FoldFrom(known, a + b) == FoldFrom(FoldFrom(known, a), b)
    decreases |b|
  {
    if b == [] {
      assert a + b == a;
    } else {
      assert (a + b)[..|a + b| - 1] == a + b[..|b| - 1];
      FoldConcat(known, a, b[..|b| - 1]);
    }
  }

  /** The containers of a history in the order they were first seen. */
  function FirstSeen(es: seq<Event>): seq<string> {
    if es == [] then []
    else
      var before, c := FirstSeen(es[..|es| - 1]), es[|es| - 1].container;
      if c == "" || c in before then before else before + [c]
  }

  predicate Keyed(known: map<string, Event>) {
    forall c :: c in known ==> c != "" && known[c].container == c
  }

  lemma {:induction false} FirstSeenIsFolded(es: seq<Event>)
    ensures Distinct(FirstSeen(es)) && Keyed(Fold(es))
    ensures forall c :: c in FirstSeen(es) <==> c in Fold(es)
  {
    if es != [] {
      FirstSeenIsFolded(es[..|es| - 1]);
    }
  }

  /** One event per name. */
  function Replay(known: map<string, Event>, names: seq<string>): (es: seq<Event>)
    requires forall i :: 0 <= i < |names| ==> names[i] in known
    ensures |es| == |names| && forall i :: 0 <= i < |names| ==> es[i] == known[names[i]]
  {
    seq(|names|, i requires 0 <= i < |names| => known[names[i]])
  }

  lemma {:induction false} FoldReplay(known: map<string, Event>, names: seq<string>)
    requires Keyed(known) && Distinct(names) && forall i :: 0 <= i < |names| ==> names[i] in known
    ensures forall c :: c in Fold(Replay(known, names)) <==> c in names
    ensures forall c :: c in names ==> Fold(Replay(known, names))[c] == known[c]
  {
    if names != [] {
      var n := |names| - 1;
      FoldReplay(known, names[..n]);
      assert Replay(known, names)[..n] == Replay(known, names[..n]);
      assert names == names[..n] + [names[n]];
    }
  }

  /** The state a new subscriber is given. */
  function Snapshot(history: seq<Event>): seq<Event> {
    FirstSeenIsFolded(history);
    Replay(Fold(history), FirstSeen(history))
  }

  /** Replaying the snapshot and then the events after it teaches a reader exactly the retained
      state: last-only retention loses nothing. */
  lemma SnapshotThenLive(before: seq<Event>, after: seq<Event>)
    ensures Fold(Snapshot(before) + after) == Fold(before + after)
  {
    FirstSeenIsFolded(before);
    FoldReplay(Fold(before), FirstSeen(before));
    assert Fold(Snapshot(before)) == Fold(before);
    FoldConcat(map[], Snapshot(before), after);
    FoldConcat(map[], before, after);
  }

  /** e is the last event of c. */
  predicate Tells(es: seq<Event>, c: string, e: Event) {
    exists i :: 0 <= i < |es| && LastOf(es, c, i) && es[i] == e
  }

  predicate LastOf(es: seq<Event>, c: string, i: nat)
    requires i < |es|
  {
    es[i].container == c && forall j :: i < j < |es| ==> es[j].container != c
  }

  lemma TellsSnoc(es: seq<Event>, x: Event, c: string, e: Event)
    ensures Tells(es + [x], c, e) <==> if x.container == c then e == x else Tells(es, c, e)
  {
    var es' := es + [x];
    if x.container == c {
      assert LastOf(es', c, |es|);
    } else {
      forall i | 0 <= i < |es|
        ensures LastOf(es', c, i) <==> LastOf(es, c, i)
      {
        assert LastOf(es', c, i) ==> forall j :: i < j < |es| ==> es[j] == es'[j];
      }
    }
  }

  /** known has exactly the containers the events name, each with its last event. */
  ghost predicate KnowsLast(known: map<string, Event>, es: seq<Event>) {
    forall c: string, e: Event :: KnowsOf(known, es, c, e)
  }

  predicate KnowsOf(known: map<string, Event>, es: seq<Event>, c: string, e: Event) {
    (c in known && known[c] == e) <==> c != "" && Tells(es, c, e)
  }

  lemma {:induction false} FoldKnowsLast(es: seq<Event>)
    ensures KnowsLast(Fold(es), es)
  {
    if es != [] {
      var n := |es| - 1;
      FoldKnowsLast(es[..n]);
      assert es == es[..n] + [es[n]];
      forall c: string, e: Event
        ensures KnowsOf(Fold(es), es, c, e)
      {
        assert KnowsOf(Fold(es[..n]), es[..n], c, e);
        TellsSnoc(es[..n], es[n], c, e);
      }
    }
  }

  /** Container a appears in the history before b first does. */
  predicate SeenBefore(es: seq<Event>, a: string, b: string) {
    exists n :: 0 <= n < |es| && SeenAt(es, a, b, n)
  }

  predicate SeenAt(es: seq<Event>, a: string, b: string, n: nat)
    requires n < |es|
  {
    es[n].container == a && forall m :: 0 <= m <= n ==> es[m].container != b
  }

  lemma {:induction false} FirstSeenInOrder(es: seq<Event>, i: nat, j: nat)
    requires i < j < |FirstSeen(es)|
    ensures SeenBefore(es, FirstSeen(es)[i], FirstSeen(es)[j])
  {
    var n := |es| - 1;
    var before := FirstSeen(es[..n]);
    var a, b := FirstSeen(es)[i], FirstSeen(es)[j];
    if j < |before| {
      FirstSeenInOrder(es[..n], i, j);
      var k :| 0 <= k < n && SeenAt(es[..n], a, b, k);
      assert SeenAt(es, a, b, k);
    } else {
      FirstSeenNames(es[..n], a);
      NamedIsSeen(es[..n]);
      var k :| 0 <= k < n && es[..n][k].container == a;
      assert SeenAt(es, a, b, k);
    }
  }

  lemma {:induction false} NamedIsSeen(es: seq<Event>)
    ensures forall k :: 0 <= k < |es| && es[k].container != "" ==> es[k].container in FirstSeen(es)
    ensures "" !in FirstSeen(es)
  {
    if es != [] {
      NamedIsSeen(es[..|es| - 1]);
    }
  }

  predicate Names(es: seq<Event>, c: string) {
    exists k :: 0 <= k < |es| && es[k].container == c
  }

  lemma {:induction false} FirstSeenNames(es: seq<Event>, c: string)
    requires c in FirstSeen(es)
    ensures Names(es, c)
  {
    var n := |es| - 1;
    if c in FirstSeen(es[..n]) {
      FirstSeenNames(es[..n], c);
      var k :| 0 <= k < n && es[..n][k].container == c;
      assert es[k].container == c;
    } else {
      assert es[n].container == c;
    }
  }

  /** What a new subscriber is promised: the last event of every container the history names and
      nothing else, containers in the order they first appeared. */
  ghost predicate TellsState(replay: seq<Event>, history: seq<Event>) {
    (forall i :: 0 <= i < |replay| ==>
       replay[i].container != "" && Tells(history, replay[i].container, replay[i])) &&
    (forall c, e :: c != "" && Tells(history, c, e) ==> e in replay) &&
    (forall i, j :: 0 <= i < j < |replay| ==> SeenBefore(history, replay[i].container, replay[j].container))
  }

  lemma SnapshotTells(history: seq<Event>)
    ensures TellsState(Snapshot(history), history)
  {
    var replay, names := Snapshot(history), FirstSeen(history);
    FirstSeenIsFolded(history);
    FoldKnowsLast(history);
    forall i | 0 <= i < |replay|
      ensures replay[i].container != "" && Tells(history, replay[i].container, replay[i])
    {
      assert KnowsOf(Fold(history), history, names[i], replay[i]);
    }
    forall c, e | c != "" && Tells(history, c, e)
      ensures e in replay
    {
      assert KnowsOf(Fold(history), history, c, e);
      var i :| 0 <= i < |names| && names[i] == c;
      assert replay[i] == e;
    }
    forall i, j | 0 <= i < j < |replay|
      ensures SeenBefore(history, replay[i].container, replay[j].container)
    {
      FirstSeenInOrder(history, i, j);
    }
  }

  /** A subscriber's channel. */
  datatype Channel = Channel(queue: seq<Event>, lossy: bool, shut: bool)

  /** The non-blocking send: a full queue drops the event and marks the subscriber. */
  function Offer(ch: Channel, e: Event, size: nat): Channel {
    if |ch.queue| < size then ch.(queue := ch.queue + [e]) else ch.(lossy := true)
  }

  /** A subscriber's life: whether it was given a snapshot, what was replayed, what it has received,
      the stretch of the history published while it was registered, and the fate of each event of it. */
  datatype Life = Life(full: bool, replay: seq<Event>, got: seq<Event>, from: nat, until: nat, fates: seq<bool>)

  /** Received and queued are the events of the stretch that were not dropped, once each and in
      order; the subscriber is marked exactly when one was. */
  predicate Balances(stretch: seq<Event>, ch: Channel, life: Life) {
    |life.fates| == |stretch| && life.got + ch.queue == Pick(stretch, life.fates, true) &&
    (ch.lossy <==> false in life.fates)
  }

  predicate Accounted(history: seq<Event>, ch: Channel, life: Life, size: nat) {
    life.from <= life.until <= |history| && |ch.queue| <= size &&
    (life.full ==> life.replay == Snapshot(history[..life.from])) &&
    Balances(history[life.from..life.until], ch, life)
  }

  /** The life of a registered subscriber after one more event: it is dropped only for want of room. */
  function Lived(life: Life, ch: Channel, size: nat): Life {
    life.(until := life.until + 1, fates := life.fates + [|ch.queue| < size])
  }

  lemma OfferBalances(stretch: seq<Event>, ch: Channel, life: Life, size: nat, e: Event)
    requires Balances(stretch, ch, life)
    ensures Balances(stretch + [e], Offer(ch, e, size), Lived(life, ch, size))
  {
    PickMore(stretch, life.fates, true, e, |ch.queue| < size);
    assert life.got + (ch.queue + [e]) == life.got + ch.queue + [e];
  }

  lemma StretchGrows(history: seq<Event>, e: Event, from: nat)
    requires from <= |history|
    ensures (history + [e])[..from] == history[..from]
    ensures (history + [e])[from..|history| + 1] == history[from..|history|] + [e]
  {
  }

  lemma OfferAccounted(history: seq<Event>, ch: Channel, life: Life, size: nat, e: Event)
    requires Accounted(history, ch, life, size) && life.until == |history|
    ensures Accounted(history + [e], Offer(ch, e, size), Lived(life, ch, size), size)
  {
    OfferBalances(history[life.from..life.until], ch, life, size, e);
    StretchGrows(history, e, life.from);
  }

  lemma AwayAccounted(history: seq<Event>, ch: Channel, life: Life, size: nat, e: Event)
    requires Accounted(history, ch, life, size)
    ensures Accounted(history + [e], ch, life, size)
  {
    assert (history + [e])[..life.from] == history[..life.from];
    assert (history + [e])[life.from..life.until] == history[life.from..life.until];
  }

  /** Everything of a fan-out its subscribers' account depends on. */
  datatype Board = Board(subs: set<nat>, channels: map<nat, Channel>, lives: map<nat, Life>, size: nat)

  /** Subscriber id is accounted for; while registered its stretch reaches to the present. */
  predicate SubIs(history: seq<Event>, b: Board, id: nat) {
    (id in b.channels <==> id in b.lives) &&
    (id in b.channels ==> Accounted(history, b.channels[id], b.lives[id], b.size)) &&
    (id in b.subs ==> id in b.channels && !b.channels[id].shut && b.lives[id].until == |history|)
  }

  ghost predicate SubsAre(history: seq<Event>, b: Board) {
    forall id: nat :: SubIs(history, b, id)
  }

  function OfferAll(channels: map<nat, Channel>, to: set<nat>, e: Event, size: nat): map<nat, Channel> {
    map id | id in channels :: if id in to then Offer(channels[id], e, size) else channels[id]
  }

  lemma OfferOne(channels: map<nat, Channel>, to: set<nat>, id: nat, e: Event, size: nat)
    requires id in channels && id !in to
    ensures OfferAll(channels, to, e, size)[id := Offer(channels[id], e, size)] ==
            OfferAll(channels, to + {id}, e, size)
  {
  }

  /** The lives after an event was offered to those in `to`. */
  function Extend(lives: map<nat, Life>, channels: map<nat, Channel>, to: set<nat>, size: nat): map<nat, Life> {
    map id | id in lives :: if id in to && id in channels then Lived(lives[id], channels[id], size) else lives[id]
  }

  function ShutAll(channels: map<nat, Channel>, ids: set<nat>): map<nat, Channel> {
    map id | id in channels :: if id in ids then channels[id].(shut := true) else channels[id]
  }

  lemma ShutOne(channels: map<nat, Channel>, ids: set<nat>, id: nat)
    requires id in channels
    ensures ShutAll(channels, ids)[id := channels[id].(shut := true)] == ShutAll(channels, ids + {id})
  {
  }

  /** The board after one more event. */
  function Published(b: Board, e: Event): Board {
    b.(channels := OfferAll(b.channels, b.subs, e, b.size), lives := Extend(b.lives, b.channels, b.subs, b.size))
  }

  lemma PublishedSubs(history: seq<Event>, b: Board, e: Event)
    requires SubsAre(history, b)
    ensures SubsAre(history + [e], Published(b, e))
  {
    var history', b' := history + [e], Published(b, e);
    forall id: nat
      ensures SubIs(history', b', id)
    {
      assert SubIs(history, b, id);
      if id in b.subs {
        OfferAccounted(history, b.channels[id], b.lives[id], b.size, e);
      } else if id in b.channels {
        AwayAccounted(history, b.channels[id], b.lives[id], b.size, e);
      }
    }
  }

  /** A new subscriber, registered unless its channel is shut already. */
  function Joined(b: Board, id: nat, ch: Channel, life: Life): Board {
    b.(subs := if ch.shut then b.subs else b.subs + {id}, channels := b.channels[id := ch],
       lives := b.lives[id := life])
  }

  lemma JoinedSubs(history: seq<Event>, b: Board, id: nat, ch: Channel, life: Life)
    requires SubsAre(history, b) && id !in b.channels && ch.queue == [] && !ch.lossy
    requires life.got == [] && life.fates == []
    requires life.from == life.until == |history| && (life.full ==> life.replay == Snapshot(history))
    ensures SubsAre(history, Joined(b, id, ch, life))
  {
    assert history[..|history|] == history && history[|history|..|history|] == [];
    forall i: nat
      ensures SubIs(history, Joined(b, id, ch, life), i)
    {
      assert SubIs(history, b, i);
    }
  }

  /** A subscriber receives its oldest event. */
  function Taken(b: Board, id: nat): Board
    requires id in b.channels && id in b.lives && b.channels[id].queue != []
  {
    var ch, life := b.channels[id], b.lives[id];
    b.(channels := b.channels[id := ch.(queue := ch.queue[1..])],
       lives := b.lives[id := life.(got := life.got + [ch.queue[0]])])
  }

  lemma TakenSubs(history: seq<Event>, b: Board, id: nat)
    requires SubsAre(history, b) && id in b.channels && id in b.lives && b.channels[id].queue != []
    ensures SubsAre(history, Taken(b, id))
  {
    var ch, life := b.channels[id], b.lives[id];
    assert life.got + [ch.queue[0]] + ch.queue[1..] == life.got + ch.queue;
    forall i: nat
      ensures SubIs(history, Taken(b, id), i)
    {
      assert SubIs(history, b, i);
    }
  }

  /** Leaving, and the end of the fan-out, touch nobody's account. */
  lemma FewerSubs(history: seq<Event>, b: Board, subs: set<nat>, which: set<nat>)
    requires SubsAre(history, b) && subs <= b.subs && which !! subs
    ensures SubsAre(history, b.(subs := subs, channels := ShutAll(b.channels, which)))
  {
    forall i: nat
      ensures SubIs(history, b.(subs := subs, channels := ShutAll(b.channels, which)), i)
    {
      assert SubIs(history, b, i);
    }
  }

  class Fanout {
    const queueSize: nat
    var channels: map<nat, Channel>
    var subs: set<nat>
    var closed: bool
    var latest: map<string, Event>
    var order: seq<string>
    ghost var history: seq<Event>
    ghost var lives: map<nat, Life>

    ghost function TheBoard(): Board
      reads this`channels, this`subs, this`lives
    {
      Board(subs, channels, lives, queueSize)
    }

    /** The state kept is the fold of everything published. */
    ghost predicate Retains()
      reads this`latest, this`order, this`history
    {
      latest == Fold(history) && order == FirstSeen(history)
    }

    ghost predicate Valid()
      reads this
    {
      queueSize > 0 && Retains() && (closed ==> subs == {}) && SubsAre(history, TheBoard())
    }

    constructor (size: int)
      ensures Valid() && history == [] && !closed && queueSize == if size <= 0 then 64 else size
      ensures channels == map[]
    {
      queueSize := if size <= 0 then 64 else size;
      channels, subs, closed, latest, order, history, lives := map[], {}, false, map[], [], [], map[];
    }

    /** Publish: record the event and offer it to every subscriber, in one critical section. */
    method Publish(e: Event)
      requires Valid()
      modifies this
      ensures Valid() && closed == old(closed) && subs == old(subs)
      ensures closed ==> history == old(history) && TheBoard() == old(TheBoard())
      ensures !closed ==> history == old(history) + [e] && TheBoard() == Published(old(TheBoard()), e)
      ensures latest == if closed || e.container == "" then old(latest) else old(latest)[e.container := e]
      ensures KnowsLast(latest, history)
    {
      if !closed {
        Distribute(e);
        Record(e);
      }
      FoldKnowsLast(history);
    }

    /** Every subscriber is offered the event that is about to be recorded. */
    method Distribute(e: Event)
      requires SubsAre(history, TheBoard())
      modifies this`channels, this`lives
      ensures TheBoard() == Published(old(TheBoard()), e) && SubsAre(history + [e], TheBoard())
    {
      PublishedSubs(history, TheBoard(), e);
      ghost var board := Published(TheBoard(), e);
      FanOut(e);
      lives := board.lives;
    }

    method Record(e: Event)
      requires Retains()
      modifies this`latest, this`order, this`history
      ensures Retains() && history == old(history) + [e]
      ensures latest == if e.container == "" then old(latest) else old(latest)[e.container := e]
    {
      FirstSeenIsFolded(history);
      assert (history + [e])[..|history|] == history;
      if e.container != "" {
        if e.container !in latest {
          order := order + [e.container];
        }
        latest := latest[e.container := e];
      }
      history := history + [e];
    }

    method FanOut(e: Event)
      requires SubsAre(history, TheBoard())
      modifies this`channels
      ensures channels == OfferAll(old(channels), subs, e, queueSize)
    {
      forall id | id in subs
        ensures id in channels
      {
        assert SubIs(history, TheBoard(), id);
      }
      var todo := subs;
      ghost var done: set<nat> := {};
      while todo != {}
        invariant todo !! done && todo + done == subs <= channels.Keys
        invariant channels == OfferAll(old(channels), done, e, queueSize)
        decreases |todo|
      {
        var id :| id in todo;
        OfferOne(old(channels), done, id, e, queueSize);
        channels := channels[id := Offer(channels[id], e, queueSize)];
        todo, done := todo - {id}, done + {id};
      }
    }

    /** subscribe: register and, when asked, take the snapshot, in one critical section. */
    method Subscribe(snapshot: bool) returns (id: nat, replay: seq<Event>)
      requires Valid()
      modifies this`channels, this`subs, this`lives
      ensures Valid() && id !in old(channels) && replay == if snapshot && !closed then Snapshot(history) else []
      ensures snapshot && !closed ==> TellsState(replay, history)
      ensures TheBoard() == Joined(old(TheBoard()), id, Channel([], false, closed),
                                   Life(snapshot && !closed, replay, [], |history|, |history|, []))
    {
      id :| id !in channels by {
        FreshId(channels.Keys);
      }
      replay := [];
      if snapshot && !closed {
        replay := TakeSnapshot();
        SnapshotTells(history);
      }
      var ch := Channel([], false, closed);
      ghost var life := Life(snapshot && !closed, replay, [], |history|, |history|, []);
      JoinedSubs(history, TheBoard(), id, ch, life);
      channels, lives := channels[id := ch], lives[id := life];
      if !closed {
        subs := subs + {id};
      }
    }

    method TakeSnapshot() returns (replay: seq<Event>)
      requires Retains()
      ensures replay == Snapshot(history)
    {
      FirstSeenIsFolded(history);
      replay := [];
      for i := 0 to |order|
        invariant replay == Snapshot(history)[..i]
      {
        replay := replay + [latest[order[i]]];
      }
    }

    /** A reader takes the oldest queued event. */
    method Receive(id: nat) returns (e: Event)
      requires Valid() && id in channels && channels[id].queue != []
      modifies this`channels, this`lives
      ensures Valid() && id in old(lives) && TheBoard() == Taken(old(TheBoard()), id) && e == old(channels[id].queue[0])
    {
      assert SubIs(history, TheBoard(), id);
      TakenSubs(history, TheBoard(), id);
      e := channels[id].queue[0];
      lives := lives[id := lives[id].(got := lives[id].got + [e])];
      channels := channels[id := channels[id].(queue := channels[id].queue[1..])];
    }

    /** Subscription.Close: unsubscribe. Idempotent. */
    method Unsubscribe(id: nat)
      requires Valid()
      modifies this`subs
      ensures Valid() && subs == old(subs) - {id}
    {
      FewerSubs(history, TheBoard(), subs - {id}, {});
      assert ShutAll(channels, {}) == channels;
      subs := subs - {id};
    }

    /** Close: end every registered subscriber's channel; what is queued can still be read. */
    method Close()
      requires Valid()
      modifies this`closed, this`subs, this`channels
      ensures Valid() && closed
      ensures old(closed) ==> TheBoard() == old(TheBoard())
      ensures !old(closed) ==> subs == {} && channels == ShutAll(old(channels), old(subs))
    {
      if closed {
        return;
      }
      closed := true;
      FewerSubs(history, TheBoard(), {}, subs);
      forall id | id in subs
        ensures id in channels
      {
        assert SubIs(history, TheBoard(), id);
      }
      EndAll();
    }

    method EndAll()
      requires subs <= channels.Keys
      modifies this`subs, this`channels
      ensures subs == {} && channels == ShutAll(old(channels), old(subs))
    {
      ghost var done: set<nat> := {};
      while subs != {}
        invariant subs <= old(subs) <= channels.Keys && done !! subs && done + subs == old(subs)
        invariant channels == ShutAll(old(channels), done)
        decreases |subs|
      {
        var id :| id in subs;
        ShutOne(old(channels), done, id);
        channels := channels[id := channels[id].(shut := true)];
        subs, done := subs - {id}, done + {id};
      }
    }

    /** What every subscriber knows, in every state: one registered with a snapshot while the
        fan-out was open, not marked lossy and not unsubscribed, has exactly the retained state
        once it reads what is queued, before and after Close; and every live event reaches it
        exactly once, in order. */
    lemma ReaderKnowsAll(id: nat)
      requires Valid() && id in channels && id in lives
      requires lives[id].full && !channels[id].lossy && lives[id].until == |history|
      ensures Fold(lives[id].replay + lives[id].got + channels[id].queue) == latest
      ensures forall c, e :: c != "" ==>
                (Tells(lives[id].replay + lives[id].got + channels[id].queue, c, e) <==> Tells(history, c, e))
      ensures lives[id].from <= |history| && lives[id].got + channels[id].queue == history[lives[id].from..]
    {
      assert SubIs(history, TheBoard(), id);
      KnowsAll(history, channels[id], lives[id], queueSize);
      var es := lives[id].replay + lives[id].got + channels[id].queue;
      FoldKnowsLast(history);
      FoldKnowsLast(es);
      forall c, e | c != ""
        ensures Tells(es, c, e) <==> Tells(history, c, e)
      {
        assert KnowsOf(latest, es, c, e) && KnowsOf(latest, history, c, e);
      }
    }

    /** A subscriber has or will get, in order, exactly the events of its stretch that were not
        dropped, and is marked lossy exactly when one was. */
    lemma LossyExactly(id: nat)
      requires Valid() && id in channels && id in lives
      ensures
        var ch, life := channels[id], lives[id];
        life.from <= life.until <= |history| && |life.fates| == life.until - life.from &&
        life.got + ch.queue == Pick(history[life.from..life.until], life.fates, true) &&
        (ch.lossy <==> false in life.fates) && (ch.lossy <==> |life.got| + |ch.queue| < life.until - life.from)
    {
      assert SubIs(history, TheBoard(), id);
      KeptWhole(history[lives[id].from..lives[id].until], lives[id].fates);
    }
  }

  lemma KnowsAll(history: seq<Event>, ch: Channel, life: Life, size: nat)
    requires Accounted(history, ch, life, size) && life.full && !ch.lossy && life.until == |history|
    ensures Fold(life.replay + life.got + ch.queue) == Fold(history)
    ensures life.got + ch.queue == history[life.from..]
  {
    var n := life.from;
    KeptWhole(history[n..life.until], life.fates);
    Regroup(life.replay, life.got, ch.queue);
    assert history[n..life.until] == history[n..];
    SnapshotThenLive(history[..n], history[n..]);
    assert history[..n] + history[n..] == history;
  }

  lemma Regroup(a: seq<Event>, b: seq<Event>, c: seq<Event>)
    ensures a + b + c == a + (b + c)
  {
  }
}
