/** `kubectl logs -f` over the line ring: a follower replays the retained entries, then follows
    its channel and fetches from the ring whatever the channel dropped. Every lock-granular step
    of the writer, of the ring's end and of the follower may interleave. */
module Follow {
  import opened LogRing

  /** What the follower does once a fetch is sent: end, or deal with the entry it had received. */
  datatype Reason = ChannelEnded | Received(e: Entry)

  /** Where the streaming goroutine stands. */
  datatype Phase =
    | Subscribed                                  // registered, snapshot not yet taken
    | Replaying(rest: seq<Entry>)                 // sending the snapshot
    | Following                                   // waiting on the channel
    | Fetching(why: Reason)                       // about to take what the ring holds from `next`
    | CatchingUp(rest: seq<Entry>, why: Reason)   // sending what it took
    | Sending(e: Entry)                           // sending the received entry itself
    | Finished                                    // ended by the container, or snapshot only
    | Cancelled                                   // the reader went away

  datatype Selector = Selector(since: int, tail: int, follow: bool)

  /** The system: the ring, this follower's channel, and the follower. `next` is the number of
      the first entry the stream has not passed, `cursor` its value after the snapshot, `selected`
      what the snapshot selected, `lost` the numbers the full channel dropped. */
  datatype State = State(
    ring: View, ch: Channel, sel: Selector, phase: Phase,
    next: nat, cursor: nat, selected: seq<Entry>, replayed: seq<Entry>, sent: seq<Entry>, lost: set<nat>)

  ghost predicate Init(b: Bounds, s: State) {
    Sound(b, s.ring) &&
    s.ch.queue == [] && s.ch.open == !s.ring.closed && s.phase == Subscribed &&
    s.next == 0 && s.cursor == 0 &&
    s.selected == [] && s.replayed == [] && s.sent == [] && s.lost == {}
  }

  datatype Step =
    | AppendStep(e: Entry, ring: View)   // the writer; `ring` is what it left
    | CloseStep                          // the container exited
    | SnapshotStep
    | ReplayStep                         // send one snapshot entry, or finish the replay
    | ReceiveStep                        // take from the channel, or see it ended
    | FetchStep
    | CatchUpStep                        // send one fetched entry, or finish the fetch
    | SendStep
    | CancelStep

  /** The follower learns what the channel had. */
  function AfterReceive(s: State, e: Entry): Phase {
    if e.seqno > s.next then Fetching(Received(e))
    else if e.seqno < s.next then Following
    else Sending(e)
  }

  /** A fetch done: the stream ends, or the received entry is skipped if the fetch passed it. */
  function AfterCatchUp(s: State, why: Reason): Phase {
    match why
    case ChannelEnded => Finished
    case Received(e) => if e.seqno < s.next then Following else Sending(e)
  }

  ghost predicate Next(b: Bounds, s: State, step: Step, s': State) {
    match step
    case AppendStep(e, ring) =>
      Appends(b, s.ring, e, ring) &&
      s' == if s.ring.closed || !s.ch.open then s.(ring := ring)
            else
              var stored := Stored(s.ring.history, e);
              s.(ring := ring, ch := Deliver(s.ch, stored),
                 lost := if |s.ch.queue| < s.ch.capacity then s.lost else s.lost + {stored.seqno})
    case CloseStep =>
      s' == s.(ring := s.ring.(closed := true), ch := s.ch.(open := false))
    case SnapshotStep =>
      s.phase == Subscribed && s.ring.first <= |s.ring.history| &&
      var selected := Selected(s.ring.history[s.ring.first..], s.sel.since, s.sel.tail);
      s' == s.(phase := Replaying(selected), selected := selected,
               next := |s.ring.history|, cursor := |s.ring.history|)
    case ReplayStep =>
      s.phase.Replaying? &&
      s' == if s.phase.rest != [] then
              s.(phase := Replaying(s.phase.rest[1..]), replayed := s.replayed + [s.phase.rest[0]])
            else s.(phase := if s.sel.follow then Following else Finished)
    case ReceiveStep =>
      s.phase == Following &&
      if s.ch.queue != [] then
        s' == s.(ch := s.ch.(queue := s.ch.queue[1..]), phase := AfterReceive(s, s.ch.queue[0]))
      else !s.ch.open && s' == s.(phase := Fetching(ChannelEnded))
    case FetchStep =>
      s.phase.Fetching? && s.ring.first <= |s.ring.history| &&
      s' == s.(phase := CatchingUp(HeldFrom(s.ring, s.next), s.phase.why))
    case CatchUpStep =>
      s.phase.CatchingUp? &&
      s' == if s.phase.rest != [] then
              s.(phase := s.phase.(rest := s.phase.rest[1..]), sent := s.sent + [s.phase.rest[0]],
                 next := s.phase.rest[0].seqno + 1)
            else s.(phase := AfterCatchUp(s, s.phase.why))
    case SendStep =>
      s.phase.Sending? &&
      s' == s.(phase := Following, sent := s.sent + [s.phase.e], next := s.phase.e.seqno + 1)
    case CancelStep =>
      !s.phase.Finished? && s' == s.(phase := Cancelled)
  }

  /** es are entries of the history, in history order. */
  predicate InOrder(history: seq<Entry>, es: seq<Entry>) {
    (forall i :: 0 <= i < |es| ==> es[i].seqno < |history| && es[i] == history[es[i].seqno]) &&
    (forall i, j :: 0 <= i < j < |es| ==> es[i].seqno < es[j].seqno)
  }

  predicate Among(es: seq<Entry>, n: nat) {
    exists i :: 0 <= i < |es| && es[i].seqno == n
  }

  /** Entry n was sent to the reader, or the ring no longer held it. */
  predicate Passed(s: State, n: nat) {
    Among(s.sent, n) || n < s.ring.first
  }

  predicate ChannelInv(s: State) {
    InOrder(s.ring.history, s.ch.queue) && s.ch.open == !s.ring.closed
  }

  predicate Between(es: seq<Entry>, lo: nat, hi: nat) {
    forall i :: 0 <= i < |es| ==> lo <= es[i].seqno < hi
  }

  /** What was sent live lies in [cursor, next), in order, and nothing there was skipped that
      the ring still held. */
  predicate SentInv(s: State) {
    s.cursor <= s.next <= |s.ring.history| &&
    InOrder(s.ring.history, s.sent) && Between(s.sent, s.cursor, s.next) &&
    (forall n :: s.cursor <= n < s.next ==> Passed(s, n)) &&
    (s.phase.Subscribed? ==> s.sent == [])
  }

  /** The snapshot, sent or still to send. */
  function Replay(s: State): seq<Entry> {
    if s.phase.Replaying? then s.replayed + s.phase.rest else s.replayed
  }

  /** The snapshot lies before the cursor, in order, and is sent from its front; only a
      cancelled stream drops the rest of it. */
  predicate ReplayInv(s: State) {
    InOrder(s.ring.history, s.selected) && Between(s.selected, 0, s.cursor) &&
    s.replayed <= s.selected && (!s.phase.Cancelled? ==> Replay(s) == s.selected) &&
    (s.phase.Subscribed? ==> s.selected == [])
  }

  /** rest is a run of the history that starts at `next`, or past it after something evicted. */
  predicate RunFrom(s: State, rest: seq<Entry>) {
    rest != [] ==>
      s.next <= rest[0].seqno && rest[0].seqno + |rest| <= |s.ring.history| &&
      rest == s.ring.history[rest[0].seqno..rest[0].seqno + |rest|] &&
      (s.next < rest[0].seqno ==> rest[0].seqno <= s.ring.first)
  }

  /** One past the last entry the fetch will have passed. */
  function FetchEnd(s: State, rest: seq<Entry>): nat {
    if rest == [] then s.next else rest[0].seqno + |rest|
  }

  predicate FetchInv(s: State) {
    match s.phase
    case Fetching(Received(e)) => s.next < e.seqno < |s.ring.history|
    case Fetching(ChannelEnded) => s.ring.closed
    case Sending(e) => e.seqno == s.next < |s.ring.history| && e == s.ring.history[e.seqno]
    case CatchingUp(rest, Received(e)) => RunFrom(s, rest) && e.seqno < FetchEnd(s, rest)
    case CatchingUp(rest, ChannelEnded) => RunFrom(s, rest) && s.ring.closed && FetchEnd(s, rest) == |s.ring.history|
    case Finished => s.sel.follow ==> s.ring.closed && s.next == |s.ring.history|
    case _ => true
  }

  /** The phase at hand will pass entry n, or does not need to yet. */
  predicate PhaseCovers(p: Phase, n: nat) {
    match p
    case Fetching(Received(e)) => n == e.seqno
    case Sending(e) => n == e.seqno
    case CatchingUp(rest, _) => rest != [] && n < rest[0].seqno + |rest|
    case Fetching(ChannelEnded) => true
    case Subscribed => true
    case Cancelled => true
    case Finished => true
    case _ => false
  }

  predicate Covered(s: State, n: nat) {
    Among(s.ch.queue, n) || n in s.lost || PhaseCovers(s.phase, n)
  }

  /** While it streams, an entry not yet passed is queued, held by the phase, or was dropped by
      a full channel. */
  predicate LagInv(s: State) {
    forall n :: s.next <= n < |s.ring.history| ==> Covered(s, n)
  }

  ghost predicate Inv(b: Bounds, s: State) {
    Sound(b, s.ring) && ChannelInv(s) && SentInv(s) && ReplayInv(s) && FetchInv(s) && LagInv(s)
  }

  /** The ring only gains entries and evicts more. */
  predicate Grows(r: View, r': View) {
    r.history <= r'.history && r.first <= r'.first
  }

  lemma InOrderGrows(h: seq<Entry>, h': seq<Entry>, es: seq<Entry>)
    requires InOrder(h, es) && h <= h'
    ensures InOrder(h', es)
  {
  }

  lemma InOrderAppend(h: seq<Entry>, es: seq<Entry>, e: Entry)
    requires InOrder(h, es) && e.seqno < |h| && e == h[e.seqno] && Between(es, 0, e.seqno)
    ensures InOrder(h, es + [e])
  {
  }

  lemma SentKept(s: State, s': State)
    requires SentInv(s) && Grows(s.ring, s'.ring)
    requires s'.sent == s.sent && s'.next == s.next && s'.cursor == s.cursor
    requires s'.phase.Subscribed? ==> s.phase.Subscribed?
    ensures SentInv(s')
  {
    InOrderGrows(s.ring.history, s'.ring.history, s.sent);
    forall n | s.cursor <= n < s.next
      ensures Passed(s', n)
    {
      assert Passed(s, n);
    }
  }

  lemma ReplayKept(s: State, s': State)
    requires ReplayInv(s) && Grows(s.ring, s'.ring)
    requires s'.selected == s.selected && s'.cursor == s.cursor && (s'.phase.Subscribed? ==> s.phase.Subscribed?)
    requires (s'.phase.Cancelled? && s'.replayed == s.replayed) || Replay(s') == Replay(s) == s.selected
    ensures ReplayInv(s')
  {
    InOrderGrows(s.ring.history, s'.ring.history, s.selected);
  }

  lemma RunKept(s: State, s': State, rest: seq<Entry>)
    requires RunFrom(s, rest) && Grows(s.ring, s'.ring) && s.next == s'.next
    ensures RunFrom(s', rest)
  {
    if rest != [] {
      var k := rest[0].seqno;
      assert s'.ring.history[k..k + |rest|] == s.ring.history[k..k + |rest|];
    }
  }

  /** One more entry sent: the one at `next`, or a later one when all between are evicted. */
  lemma SentOne(s: State, s': State, e: Entry)
    requires SentInv(s) && s'.ring == s.ring && s'.cursor == s.cursor
    requires s.next <= e.seqno < |s.ring.history| && e == s.ring.history[e.seqno]
    requires s.next < e.seqno ==> e.seqno <= s.ring.first
    requires s'.sent == s.sent + [e] && s'.next == e.seqno + 1 && !s'.phase.Subscribed?
    ensures SentInv(s')
  {
    InOrderAppend(s.ring.history, s.sent, e);
    forall n | s.cursor <= n < s'.next
      ensures Passed(s', n)
    {
      if n < s.next {
        assert Passed(s, n);
        if Among(s.sent, n) {
          var i :| 0 <= i < |s.sent| && s.sent[i].seqno == n;
          assert s'.sent[i].seqno == n;
        }
      } else if n == e.seqno {
        assert s'.sent[|s.sent|].seqno == n;
      }
    }
  }

  lemma AppendKeepsLag(s: State, e: Entry, s': State)
    requires LagInv(s) && s'.ring.history == s.ring.history + [e] && e.seqno == |s.ring.history|
    requires s'.next == s.next && s'.phase == s.phase && s'.ch == Deliver(s.ch, e)
    requires s'.lost == if |s.ch.queue| < s.ch.capacity then s.lost else s.lost + {e.seqno}
    ensures LagInv(s')
  {
    forall n | s.next <= n < |s'.ring.history|
      ensures Covered(s', n)
    {
      if n < |s.ring.history| {
        assert Covered(s, n);
        if Among(s.ch.queue, n) {
          var i :| 0 <= i < |s.ch.queue| && s.ch.queue[i].seqno == n;
          assert s'.ch.queue[i].seqno == n;
        }
      } else if |s.ch.queue| < s.ch.capacity {
        assert s'.ch.queue[|s.ch.queue|].seqno == n;
      }
    }
  }

  lemma AppendKeepsInv(b: Bounds, s: State, e: Entry, ring: View, s': State)
    requires Inv(b, s) && Next(b, s, AppendStep(e, ring), s')
    ensures Inv(b, s')
  {
    if !s.ring.closed {
      var stored := Stored(s.ring.history, e);
      EvictionIsForGood(b, s.ring, e, ring);
      InOrderGrows(s.ring.history, ring.history, s.ch.queue);
      if |s.ch.queue| < s.ch.capacity {
        InOrderAppend(ring.history, s.ch.queue, stored);
      }
      SentKept(s, s');
      ReplayKept(s, s');
      if s.phase.CatchingUp? {
        RunKept(s, s', s.phase.rest);
      }
      AppendKeepsLag(s, stored, s');
    }
  }
}
