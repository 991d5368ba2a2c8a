/** One container's bounded line ring: what it retains of everything it was ever given, and the
    stamps and sequence numbers readers resume by. */
module LogRing {
  import opened Bytes
  import opened Ids

  datatype StreamKind = Stdout | Stderr

  /** Instants in nanoseconds; ZERO_TIME is the unset time. */
  const ZERO_TIME := 0

  datatype Entry = Entry(at: int, line: ByteString, kind: StreamKind, partial: bool, seqno: nat) {
    function Size(): nat { |line| }
  }

  datatype Bounds = Bounds(maxEntries: nat, maxBytes: nat)

  const DEFAULT_ENTRIES := 4096
  const DEFAULT_BYTES := 0x40_0000

  function Total(es: seq<Entry>): nat {
    if es == [] then 0 else es[0].Size() + Total(es[1..])
  }

  lemma {:induction false} TotalAppend(es: seq<Entry>, e: Entry)
    ensures Total(es + [e]) == Total(es) + e.Size()
  {
    if es != [] {
      TotalAppend(es[1..], e);
      assert (es + [e])[1..] == es[1..] + [e];
    }
  }

  /** The lines one after the other. */
  function Text(es: seq<Entry>): ByteString {
    if es == [] then [] else es[0].line + Text(es[1..])
  }

  lemma {:induction false} TotalIsText(es: seq<Entry>)
    ensures Total(es) == |Text(es)|
  {
    if es != [] {
      TotalIsText(es[1..]);
    }
  }

  /** Both bounds hold, except that a single entry may exceed the byte bound. */
  predicate Fits(b: Bounds, es: seq<Entry>) {
    |es| <= b.maxEntries && (Total(es) <= b.maxBytes || |es| <= 1)
  }

  /** history[first..] is the longest suffix that fits. */
  predicate LongestFitting(b: Bounds, history: seq<Entry>, first: nat)
    requires first <= |history|
  {
    Fits(b, history[first..]) && NoEarlierFits(b, history, first)
  }

  /** Every suffix that starts before `first` breaks a bound. */
  predicate NoEarlierFits(b: Bounds, history: seq<Entry>, first: nat)
    requires first <= |history|
  {
    forall i :: 0 <= i < first ==> !FitsFrom(b, history, i)
  }

  predicate FitsFrom(b: Bounds, history: seq<Entry>, i: nat)
    requires i <= |history|
  {
    Fits(b, history[i..])
  }

  /** A suffix that does not fit still does not after another append. */
  lemma StillTooLong(b: Bounds, es: seq<Entry>, e: Entry)
    requires !Fits(b, es) && b.maxEntries > 0
    ensures !Fits(b, es + [e])
  {
    TotalAppend(es, e);
  }

  /** The stamp an entry is stored with: strictly after the previous one, which is the point. */
  function Stamp(lastAt: int, at: int): int {
    if lastAt != ZERO_TIME && at <= lastAt then lastAt + 1 else at
  }

  function LastAt(history: seq<Entry>): int {
    if history == [] then ZERO_TIME else history[|history| - 1].at
  }

  /** The entry Append stores for e. */
  function Stored(history: seq<Entry>, e: Entry): Entry {
    e.(at := Stamp(LastAt(history), e.at), seqno := |history|)
  }

  /** s is e as numbered n: the same line, stream and tag, stamped no earlier than e asks. */
  predicate Keeps(s: Entry, e: Entry, n: nat) {
    s.line == e.line && s.kind == e.kind && s.partial == e.partial && s.seqno == n && s.at >= e.at
  }

  /** The history is what these appends make, each stored after the ones before it. */
  ghost predicate Records(history: seq<Entry>, appended: seq<Entry>) {
    |history| == |appended| && forall i: nat :: RecordsAt(history, appended, i)
  }

  predicate RecordsAt(history: seq<Entry>, appended: seq<Entry>, i: nat) {
    i < |history| == |appended| ==> history[i] == Stored(history[..i], appended[i])
  }

  lemma RecordsSnoc(history: seq<Entry>, appended: seq<Entry>, e: Entry)
    requires Records(history, appended)
    ensures Records(history + [Stored(history, e)], appended + [e])
  {
    var history', appended' := history + [Stored(history, e)], appended + [e];
    forall i: nat
      ensures RecordsAt(history', appended', i)
    {
      assert RecordsAt(history, appended, i);
      if i <= |history| {
        assert history'[..i] == history[..i];
        assert history[..|history|] == history;
      }
    }
  }

  /** Sequence numbers are positions. */
  predicate Numbered(history: seq<Entry>) {
    forall i :: 0 <= i < |history| ==> history[i].seqno == i
  }

  /** What the ring has kept: everything appended, from `first` on still held. */
  datatype View = View(history: seq<Entry>, first: nat, closed: bool)

  ghost predicate Sound(b: Bounds, v: View) {
    b.maxEntries > 0 && v.first <= |v.history| && LongestFitting(b, v.history, v.first) && Numbered(v.history)
  }

  /** One Append, at the level of what is kept. */
  ghost predicate Appends(b: Bounds, v: View, e: Entry, v': View) {
    if v.closed then v' == v
    else !v'.closed && v'.history == v.history + [Stored(v.history, e)] && Sound(b, v')
  }

  /** The newest entry is always held. */
  lemma NewestIsHeld(b: Bounds, v: View)
    requires Sound(b, v) && v.history != []
    ensures v.first < |v.history|
  {
    assert FitsFrom(b, v.history, |v.history| - 1);
  }

  /** Appending never brings back what was evicted. */
  lemma EvictionIsForGood(b: Bounds, v: View, e: Entry, v': View)
    requires Sound(b, v) && Appends(b, v, e, v')
    ensures v.first <= v'.first
  {
    if v'.first < v.first {
      var s := Stored(v.history, e);
      assert !FitsFrom(b, v.history, v'.first);
      assert v'.history[v'.first..] == v.history[v'.first..] + [s];
      StillTooLong(b, v.history[v'.first..], s);
    }
  }

  /** A follower's channel: entries wait in it until received, and one that does not fit is
      dropped. */
  datatype Channel = Channel(queue: seq<Entry>, capacity: nat, open: bool)

  function Deliver(ch: Channel, e: Entry): Channel {
    if |ch.queue| < ch.capacity then ch.(queue := ch.queue + [e]) else ch
  }

  const DEFAULT_QUEUE := 256

  class Ring {
    const bounds: Bounds
    var entries: seq<Entry>
    var bytes: nat
    var dropped: nat
    var next: nat
    var lastAt: int
    var closed: bool
    var channels: map<nat, Channel>
    var subs: set<nat>
    ghost var history: seq<Entry>
    /** The entries appended while open, as they were given. */
    ghost var appended: seq<Entry>

    ghost function AsView(): View
      reads this
    {
      View(history, dropped, closed)
    }

    /** The held entries are the longest fitting suffix of the history. */
    ghost predicate Retains()
      reads this`entries, this`bytes, this`dropped, this`history
    {
      Sound(bounds, View(history, dropped, false)) && entries == history[dropped..] && bytes == Total(entries)
    }

    /** The history is what the appends make of it, and the next one is stamped and numbered on. */
    ghost predicate Stamped()
      reads this`history, this`appended, this`next, this`lastAt
    {
      Records(history, appended) && next == |history| && lastAt == LastAt(history)
    }

    ghost predicate Wired()
      reads this`subs, this`channels, this`closed
    {
      subs <= channels.Keys && (closed ==> subs == {}) && forall id :: id in subs ==> channels[id].open
    }

    ghost predicate Valid()
      reads this
    {
      Retains() && Stamped() && Wired()
    }

    /** NewRing: non-positive bounds take the defaults. */
    constructor (maxEntries: int, maxBytes: int)
      ensures Valid() && history == [] && appended == [] && !closed && subs == {} && channels == map[]
      ensures bounds == Bounds(if maxEntries <= 0 then DEFAULT_ENTRIES else maxEntries,
                               if maxBytes <= 0 then DEFAULT_BYTES else maxBytes)
    {
      bounds := Bounds(if maxEntries <= 0 then DEFAULT_ENTRIES else maxEntries,
                       if maxBytes <= 0 then DEFAULT_BYTES else maxBytes);
      entries, bytes, dropped, next, lastAt, closed := [], 0, 0, 0, ZERO_TIME, false;
      channels, subs, history, appended := map[], {}, [], [];
    }

    /** Append: stamp, number, store, evict oldest-first, then offer to every follower. */
    method Append(e: Entry)
      requires Valid()
      modifies this
      ensures Valid() && closed == old(closed) && subs == old(subs)
      ensures Appends(bounds, old(AsView()), e, AsView())
      ensures !closed ==> |history| == |old(history)| + 1 && Keeps(history[|old(history)|], e, |old(history)|)
      ensures appended == if closed then old(appended) else old(appended) + [e]
      ensures channels == if closed then old(channels) else Offered(old(channels), subs, Stored(old(history), e))
    {
      if closed {
        return;
      }
      var stored := Store(e);
      FanOut(stored);
    }

    method Store(e: Entry) returns (stored: Entry)
      requires Retains() && Stamped()
      modifies this`lastAt, this`next, this`appended, this`entries, this`bytes, this`dropped, this`history
      ensures Retains() && Stamped()
      ensures stored == Stored(old(history), e) && history == old(history) + [stored] && appended == old(appended) + [e]
    {
      stored := StampNext(e);
      Retain(stored);
    }

    /** Stamp and number the next entry. */
    method StampNext(e: Entry) returns (stored: Entry)
      requires Stamped()
      modifies this`lastAt, this`next, this`appended
      ensures stored == Stored(history, e) && appended == old(appended) + [e]
      ensures Records(history + [stored], appended) && next == |history| + 1 && lastAt == stored.at
    {
      var at := e.at;
      if lastAt != ZERO_TIME && at <= lastAt {
        at := lastAt + 1;
      }
      lastAt := at;
      stored := e.(at := at, seqno := next);
      RecordsSnoc(history, appended, e);
      next, appended := next + 1, appended + [e];
    }

    /** Store one entry and evict until both bounds hold. */
    method Retain(e: Entry)
      requires Retains() && e.seqno == |history|
      modifies this`entries, this`bytes, this`dropped, this`history
      ensures Retains() && history == old(history) + [e]
    {
      TotalAppend(entries, e);
      OlderStartsStillTooLong(bounds, history, dropped, e);
      assert (history + [e])[dropped..] == entries + [e];
      history := history + [e];
      entries, bytes, dropped := Evict(bounds, entries + [e], bytes + e.Size(), dropped, history);
    }

    /** Offer an entry to every registered channel, in any order, blocking on none. */
    method FanOut(e: Entry)
      requires subs <= channels.Keys
      modifies this`channels
      ensures channels == Offered(old(channels), subs, e)
    {
      var todo := subs;
      ghost var done: set<nat> := {};
      while todo != {}
        invariant todo !! done && todo + done == subs <= channels.Keys
        invariant channels == Offered(old(channels), done, e)
        decreases |todo|
      {
        var id :| id in todo;
        OfferOne(old(channels), done, id, e);
        channels := channels[id := Deliver(channels[id], e)];
        todo, done := todo - {id}, done + {id};
      }
    }

    /** from: the held entries at or after a sequence number. */
    method From(seqno: nat) returns (out: seq<Entry>)
      requires Valid()
      ensures out == HeldFrom(AsView(), seqno)
    {
      var first := next - |entries|;
      var start := seqno;
      if start < first {
        start := first;
      }
      if start >= next {
        return [];
      }
      return entries[start - first..];
    }

    /** Subscribe: a fresh channel, already ended when the ring is. */
    method Subscribe(buffer: int) returns (id: nat)
      requires Valid()
      modifies this`channels, this`subs
      ensures Valid() && id !in old(channels)
      ensures channels == old(channels)[id := Channel([], if buffer <= 0 then DEFAULT_QUEUE else buffer, !closed)]
      ensures subs == if closed then old(subs) else old(subs) + {id}
    {
      id :| id !in channels by {
        FreshId(channels.Keys);
      }
      channels := channels[id := Channel([], if buffer <= 0 then DEFAULT_QUEUE else buffer, !closed)];
      if !closed {
        subs := subs + {id};
      }
    }

    /** The function Subscribe returns: the follower is offered nothing more, and what its channel
        holds stays readable. Idempotent, and without effect on a closed ring. */
    method Unsubscribe(id: nat)
      requires Valid()
      modifies this`subs
      ensures Valid() && subs == old(subs) - {id} && (closed ==> subs == old(subs))
    {
      subs := subs - {id};
    }

    /** Close: end every follower's channel. What is queued in one can still be received. */
    method Close()
      requires Valid()
      modifies this`closed, this`channels, this`subs
      ensures Valid() && closed && subs == {}
      ensures channels == Ended(old(channels), old(subs))
    {
      if closed {
        return;
      }
      closed := true;
      while subs != {}
        invariant closed && subs <= old(subs) && channels.Keys == old(channels).Keys
        invariant channels == Ended(old(channels), old(subs) - subs)
      {
        var id :| id in subs;
        channels := channels[id := channels[id].(open := false)];
        subs := subs - {id};
      }
    }

    /** In every state the held entries are within both bounds, but that one alone may have too
        many bytes; and every evicted entry had to go: with it and all after it a bound is broken. */
    lemma HoldsWhatFits()
      requires Valid()
      ensures dropped <= |history| && entries == history[dropped..]
      ensures |entries| <= bounds.maxEntries && (|Text(entries)| <= bounds.maxBytes || |entries| == 1)
      ensures forall k: nat :: k < dropped ==>
                |history| - k > bounds.maxEntries || (|Text(history[k..])| > bounds.maxBytes && |history| - k > 1)
    {
      TotalIsText(entries);
      forall k: nat | k < dropped
        ensures |history| - k > bounds.maxEntries || (|Text(history[k..])| > bounds.maxBytes && |history| - k > 1)
      {
        assert !FitsFrom(bounds, history, k);
        TotalIsText(history[k..]);
      }
    }

    /** snapshotLocked: of the held entries stamped no earlier than `since`, at most the last `tail`. */
    method Snapshot(since: int, tail: int) returns (out: seq<Entry>, cursor: nat)
      requires Valid()
      ensures out == Selected(history[dropped..], since, tail) && cursor == |history|
      ensures Chosen(history[dropped..], since, tail, out)
    {
      out := NoEarlier(entries, since);
      if tail > 0 && |out| > tail {
        out := out[|out| - tail..];
      }
      cursor := next;
      SelectedIsChosen(entries, since, tail);
    }
  }

  /** The entries stamped no earlier than `since`. */
  method NoEarlier(entries: seq<Entry>, since: int) returns (out: seq<Entry>)
    ensures out == Since(entries, since)
  {
    out := [];
    for i := 0 to |entries|
      invariant out == Since(entries[..i], since)
    {
      assert entries[..i + 1][..i] == entries[..i];
      if since == ZERO_TIME || entries[i].at >= since {
        out := out + [entries[i]];
      }
    }
    assert entries[..|entries|] == entries;
  }

  /** Drop the oldest entries until both bounds hold or one is left. */
  method Evict(b: Bounds, held: seq<Entry>, size: nat, gone: nat, ghost history: seq<Entry>)
    returns (entries: seq<Entry>, bytes: nat, dropped: nat)
    requires b.maxEntries > 0 && gone <= |history| && held == history[gone..] && size == Total(held)
    requires NoEarlierFits(b, history, gone)
    ensures dropped <= |history| && entries == history[dropped..] && bytes == Total(entries)
    ensures LongestFitting(b, history, dropped)
  {
    entries, bytes, dropped := held, size, gone;
    while |entries| > b.maxEntries || (bytes > b.maxBytes && |entries| > 1)
      invariant dropped <= |history| && entries == history[dropped..] && bytes == Total(entries)
      invariant NoEarlierFits(b, history, dropped)
      decreases |entries|
    {
      assert !FitsFrom(b, history, dropped);
      bytes := bytes - entries[0].Size();
      entries := entries[1..];
      dropped := dropped + 1;
    }
  }

  lemma OlderStartsStillTooLong(b: Bounds, history: seq<Entry>, first: nat, e: Entry)
    requires b.maxEntries > 0 && first <= |history|
    requires NoEarlierFits(b, history, first)
    ensures NoEarlierFits(b, history + [e], first)
  {
    forall i | 0 <= i < first
      ensures !FitsFrom(b, history + [e], i)
    {
      assert !FitsFrom(b, history, i);
      assert (history + [e])[i..] == history[i..] + [e];
      StillTooLong(b, history[i..], e);
    }
  }

  /** The channels after an entry was offered to those in `to`. */
  function Offered(channels: map<nat, Channel>, to: set<nat>, e: Entry): (r: map<nat, Channel>)
    ensures r.Keys == channels.Keys && forall id :: id in r ==> r[id].open == channels[id].open
  {
    map id | id in channels :: if id in to then Deliver(channels[id], e) else channels[id]
  }

  lemma OfferOne(channels: map<nat, Channel>, to: set<nat>, id: nat, e: Entry)
    requires id in channels && id !in to
    ensures Offered(channels, to, e)[id := Deliver(channels[id], e)] == Offered(channels, to + {id}, e)
  {
  }

  /** The channels after those in `which` were closed. */
  function Ended(channels: map<nat, Channel>, which: set<nat>): map<nat, Channel> {
    map id | id in channels :: if id in which then channels[id].(open := false) else channels[id]
  }

  /** The held entries numbered seqno or later: what was evicted is gone. */
  function HeldFrom(v: View, seqno: nat): seq<Entry>
    requires v.first <= |v.history|
  {
    var start := if seqno < v.first then v.first else seqno;
    if start >= |v.history| then [] else v.history[start..]
  }

  /** The entries stamped at or after `since`, in order; the unset time selects all. */
  function Since(es: seq<Entry>, since: int): seq<Entry> {
    if es == [] then []
    else
      var e := es[|es| - 1];
      Since(es[..|es| - 1], since) + if since == ZERO_TIME || e.at >= since then [e] else []
  }

  function Selected(es: seq<Entry>, since: int, tail: int): seq<Entry> {
    var out := Since(es, since);
    if tail > 0 && |out| > tail then out[|out| - tail..] else out
  }

  /** Numbers increase along the entries. */
  predicate Ascending(es: seq<Entry>) {
    forall i, j :: 0 <= i < j < |es| ==> es[i].seqno < es[j].seqno
  }

  /** The entry is wanted: stamped no earlier than `since`, or `since` is unset. */
  predicate Meets(e: Entry, since: int) { since == ZERO_TIME || e.at >= since }

  /** Where the wanted entries stand. */
  function Wanted(es: seq<Entry>, since: int): set<nat> {
    set i: nat | i < |es| && Meets(es[i], since)
  }

  /** What a reader is promised of a snapshot of the held entries: wanted ones, in order; all of
      them, unless more are wanted than `tail`, and then exactly `tail`, each later than every
      wanted entry that is left out. */
  predicate Chosen(held: seq<Entry>, since: int, tail: int, out: seq<Entry>) {
    Ascending(out) && (forall i :: 0 <= i < |out| ==> out[i] in held && Meets(out[i], since)) &&
    if tail <= 0 || |Wanted(held, since)| <= tail then forall i :: i in Wanted(held, since) ==> held[i] in out
    else |out| == tail && forall i :: i in Wanted(held, since) && held[i] !in out ==> BeforeAll(held[i], out)
  }

  predicate BeforeAll(e: Entry, es: seq<Entry>) {
    forall j :: 0 <= j < |es| ==> e.seqno < es[j].seqno
  }

  lemma {:induction false} SinceIsWanted(es: seq<Entry>, since: int)
    requires Ascending(es)
    ensures |Since(es, since)| == |Wanted(es, since)| && Ascending(Since(es, since))
    ensures forall e :: e in Since(es, since) <==> e in es && Meets(e, since)
  {
    if es != [] {
      var n := |es| - 1;
      SinceIsWanted(es[..n], since);
      assert es == es[..n] + [es[n]];
      WantedSnoc(es[..n], es[n], since);
      var s := Since(es[..n], since);
      assert forall i :: 0 <= i < |s| ==> s[i] in s && s[i] in es[..n];
    }
  }

  lemma WantedSnoc(es: seq<Entry>, e: Entry, since: int)
    ensures |Wanted(es + [e], since)| == |Wanted(es, since)| + if Meets(e, since) then 1 else 0
  {
    var w := Wanted(es, since);
    assert Wanted(es + [e], since) == if Meets(e, since) then w + {|es|} else w;
  }

  lemma SelectedIsChosen(held: seq<Entry>, since: int, tail: int)
    requires Ascending(held)
    ensures Chosen(held, since, tail, Selected(held, since, tail))
  {
    SinceIsWanted(held, since);
    var all, out := Since(held, since), Selected(held, since, tail);
    forall i | 0 <= i < |out|
      ensures out[i] in held && Meets(out[i], since)
    {
      assert out[i] in all;
    }
    if tail > 0 && |all| > tail {
      forall i | i in Wanted(held, since) && held[i] !in out
        ensures BeforeAll(held[i], out)
      {
        LeftOutIsEarlier(all, |all| - tail, held[i]);
      }
    }
  }

  lemma LeftOutIsEarlier(all: seq<Entry>, k: nat, e: Entry)
    requires Ascending(all) && k <= |all| && e in all && e !in all[k..]
    ensures BeforeAll(e, all[k..])
  {
    var i :| 0 <= i < |all| && all[i] == e;
    assert e !in all[k..] ==> i < k;
  }
}
