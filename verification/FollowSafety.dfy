/** Every step of the follow stream keeps its invariant, and what follows for every run. */
module FollowSafety {
  import opened LogRing
  import opened Follow

  lemma ReceiveKeepsLag(s: State, s': State)
    requires LagInv(s) && s.phase == Following && s.ch.queue != []
    requires s'.ring == s.ring && s'.next == s.next && s'.lost == s.lost
    requires s'.ch.queue == s.ch.queue[1..] && s'.phase == AfterReceive(s, s.ch.queue[0])
    ensures LagInv(s')
  {
    forall n | s.next <= n < |s.ring.history|
      ensures Covered(s', n)
    {
      assert Covered(s, n);
      if Among(s.ch.queue, n) {
        var i :| 0 <= i < |s.ch.queue| && s.ch.queue[i].seqno == n;
        if i > 0 {
          assert s'.ch.queue[i - 1].seqno == n;
        }
      }
    }
  }

  lemma ReceiveKeepsInv(b: Bounds, s: State, s': State)
    requires Inv(b, s) && Next(b, s, ReceiveStep, s')
    ensures Inv(b, s')
  {
    SentKept(s, s');
    ReplayKept(s, s');
    if s.ch.queue != [] {
      ReceiveKeepsLag(s, s');
    } else {
      assert forall n :: Covered(s', n);
    }
  }

  /** What a fetch takes runs from the first entry still held to the end. */
  lemma FetchedRuns(b: Bounds, s: State)
    requires Sound(b, s.ring) && s.next <= |s.ring.history|
    ensures
      var rest := HeldFrom(s.ring, s.next);
      RunFrom(s, rest) && FetchEnd(s, rest) == |s.ring.history| && (s.next < |s.ring.history| ==> rest != [])
  {
    var h := s.ring.history;
    var start := if s.next < s.ring.first then s.ring.first else s.next;
    if h != [] {
      NewestIsHeld(b, s.ring);
    }
    if start < |h| {
      assert h[start..|h|] == h[start..] && h[start..][0] == h[start];
    }
  }

  lemma FetchKeepsInv(b: Bounds, s: State, s': State)
    requires Inv(b, s) && Next(b, s, FetchStep, s')
    ensures Inv(b, s')
  {
    SentKept(s, s');
    ReplayKept(s, s');
    FetchedRuns(b, s);
    forall n | s.next <= n < |s.ring.history|
      ensures Covered(s', n)
    {
      assert PhaseCovers(s'.phase, n);
    }
  }

  lemma CatchUpDoneKeepsInv(b: Bounds, s: State, s': State)
    requires Inv(b, s) && Next(b, s, CatchUpStep, s') && s.phase.rest == []
    ensures Inv(b, s')
  {
    ReplayKept(s, s');
    SentKept(s, s');
    forall n | s.next <= n < |s.ring.history|
      ensures Covered(s', n)
    {
      assert Covered(s, n);
    }
  }

  lemma RunTail(s: State, s': State, rest: seq<Entry>)
    requires RunFrom(s, rest) && rest != [] && Numbered(s.ring.history)
    requires s'.ring == s.ring && s'.next == rest[0].seqno + 1
    ensures RunFrom(s', rest[1..]) && FetchEnd(s', rest[1..]) == FetchEnd(s, rest)
    ensures rest[0] == s.ring.history[rest[0].seqno]
    ensures |rest| > 1 ==> rest[1..][0].seqno == rest[0].seqno + 1
  {
    var k := rest[0].seqno;
    assert rest[1..] == s.ring.history[k + 1..k + |rest|];
    if |rest| > 1 {
      assert rest[1] == s.ring.history[k + 1];
    }
  }

  lemma CatchUpOneKeepsInv(b: Bounds, s: State, s': State)
    requires Inv(b, s) && Next(b, s, CatchUpStep, s') && s.phase.rest != []
    ensures Inv(b, s')
  {
    ReplayKept(s, s');
    RunTail(s, s', s.phase.rest);
    SentOne(s, s', s.phase.rest[0]);
    forall n | s'.next <= n < |s.ring.history|
      ensures Covered(s', n)
    {
      assert Covered(s, n);
    }
  }

  lemma SendKeepsInv(b: Bounds, s: State, s': State)
    requires Inv(b, s) && Next(b, s, SendStep, s')
    ensures Inv(b, s')
  {
    ReplayKept(s, s');
    SentOne(s, s', s.phase.e);
    forall n | s'.next <= n < |s.ring.history|
      ensures Covered(s', n)
    {
      assert Covered(s, n);
    }
  }

  /** What a snapshot selects is in order and before the cursor. */
  lemma {:induction false} SinceInOrder(h: seq<Entry>, first: nat, n: nat, since: int)
    requires Numbered(h) && first <= n <= |h|
    ensures InOrder(h, Since(h[first..n], since)) && Between(Since(h[first..n], since), first, n)
    decreases n
  {
    if first < n {
      SinceInOrder(h, first, n - 1, since);
      SinceSnoc(h[first..n - 1], h[n - 1], since);
      assert h[first..n] == h[first..n - 1] + [h[n - 1]];
      InOrderAppend(h, Since(h[first..n - 1], since), h[n - 1]);
    }
  }

  lemma SinceSnoc(es: seq<Entry>, e: Entry, since: int)
    ensures Since(es + [e], since) == Since(es, since) || Since(es + [e], since) == Since(es, since) + [e]
  {
    assert (es + [e])[..|es|] == es;
  }

  lemma SelectedInOrder(h: seq<Entry>, first: nat, since: int, tail: int)
    requires Numbered(h) && first <= |h|
    ensures InOrder(h, Selected(h[first..], since, tail)) && Between(Selected(h[first..], since, tail), 0, |h|)
  {
    SinceInOrder(h, first, |h|, since);
    assert h[first..|h|] == h[first..];
    var es := Since(h[first..], since);
    if tail > 0 && |es| > tail {
      SuffixInOrder(h, es, |es| - tail);
    }
  }

  lemma SuffixInOrder(h: seq<Entry>, es: seq<Entry>, k: nat)
    requires InOrder(h, es) && k <= |es|
    ensures InOrder(h, es[k..])
    ensures forall lo, hi: nat :: Between(es, lo, hi) ==> Between(es[k..], lo, hi)
  {
  }

  lemma SnapshotKeepsInv(b: Bounds, s: State, s': State)
    requires Inv(b, s) && Next(b, s, SnapshotStep, s')
    ensures Inv(b, s')
  {
    SelectedInOrder(s.ring.history, s.ring.first, s.sel.since, s.sel.tail);
    assert s.replayed == [] && s'.phase.rest == s'.selected;
    assert Replay(s') == s'.selected;
    assert SentInv(s');
    assert LagInv(s');
  }

  lemma ReplayKeepsInv(b: Bounds, s: State, s': State)
    requires Inv(b, s) && Next(b, s, ReplayStep, s')
    ensures Inv(b, s')
  {
    SentKept(s, s');
    assert Replay(s') == Replay(s);
    ReplayKept(s, s');
    forall n | s.next <= n < |s.ring.history|
      ensures Covered(s', n)
    {
      assert Covered(s, n);
    }
  }

  lemma StepKeepsInv(b: Bounds, s: State, step: Step, s': State)
    requires Inv(b, s) && Next(b, s, step, s')
    ensures Inv(b, s')
  {
    match step
    case AppendStep(e, ring) => AppendKeepsInv(b, s, e, ring, s');
    case SnapshotStep => SnapshotKeepsInv(b, s, s');
    case ReplayStep => ReplayKeepsInv(b, s, s');
    case ReceiveStep => ReceiveKeepsInv(b, s, s');
    case FetchStep => FetchKeepsInv(b, s, s');
    case CatchUpStep =>
      if s.phase.rest == [] {
        CatchUpDoneKeepsInv(b, s, s');
      } else {
        CatchUpOneKeepsInv(b, s, s');
      }
    case SendStep => SendKeepsInv(b, s, s');
    case CloseStep => CloseKeepsInv(b, s, s');
    case CancelStep => CancelKeepsInv(b, s, s');
  }

  lemma CloseKeepsInv(b: Bounds, s: State, s': State)
    requires Inv(b, s) && Next(b, s, CloseStep, s')
    ensures Inv(b, s')
  {
    SentKept(s, s');
    ReplayKept(s, s');
    assert forall n :: Covered(s, n) ==> Covered(s', n);
  }

  lemma CancelKeepsInv(b: Bounds, s: State, s': State)
    requires Inv(b, s) && Next(b, s, CancelStep, s')
    ensures Inv(b, s')
  {
    SentKept(s, s');
    ReplayKept(s, s');
    assert forall n :: Covered(s', n);
  }

  /** A run of the system: any steps, in any order. */
  ghost predicate IsRun(b: Bounds, trace: seq<State>, steps: seq<Step>) {
    |trace| == |steps| + 1 && Init(b, trace[0]) &&
    forall i :: 0 <= i < |steps| ==> Next(b, trace[i], steps[i], trace[i + 1])
  }

  lemma {:induction false} RunKeepsInv(b: Bounds, trace: seq<State>, steps: seq<Step>, n: nat)
    requires IsRun(b, trace, steps) && n < |trace|
    ensures Inv(b, trace[n])
  {
    if n > 0 {
      RunKeepsInv(b, trace, steps, n - 1);
      StepKeepsInv(b, trace[n - 1], steps[n - 1], trace[n]);
    }
  }

  /** Everything the reader was given, in the order it was given. */
  function Output(s: State): seq<Entry> { s.replayed + s.sent }

  /** In every state of every run: the output is entries of the container's history, with their
      own content, in strictly increasing number, none repeated; and every entry past the
      snapshot that the stream has moved beyond was sent, unless the ring had already evicted it. */
  lemma StreamIsFaithful(b: Bounds, trace: seq<State>, steps: seq<Step>, k: nat)
    requires IsRun(b, trace, steps) && k < |trace|
    ensures InOrder(trace[k].ring.history, Output(trace[k]))
    ensures forall n :: trace[k].cursor <= n < trace[k].next ==> Passed(trace[k], n)
  {
    RunKeepsInv(b, trace, steps, k);
    var s := trace[k];
    var out := Output(s);
    forall i | 0 <= i < |out|
      ensures out[i].seqno < |s.ring.history| && out[i] == s.ring.history[out[i].seqno]
    {
      if i < |s.replayed| {
        assert out[i] == s.selected[i];
      } else {
        assert out[i] == s.sent[i - |s.replayed|];
      }
    }
    forall i, j | 0 <= i < j < |out|
      ensures out[i].seqno < out[j].seqno
    {
      if j < |s.replayed| {
        assert out[i] == s.selected[i] && out[j] == s.selected[j];
      } else if i < |s.replayed| {
        assert out[i] == s.selected[i] && out[j] == s.sent[j - |s.replayed|];
      } else {
        assert out[i] == s.sent[i - |s.replayed|] && out[j] == s.sent[j - |s.replayed|];
      }
    }
  }

  /** A follow stream that ends on its own ends after the container: the whole snapshot was
      sent, and every entry since that the ring still holds. */
  lemma EndedStreamIsComplete(b: Bounds, trace: seq<State>, steps: seq<Step>, k: nat)
    requires IsRun(b, trace, steps) && k < |trace| && trace[k].phase == Finished && trace[k].sel.follow
    ensures trace[k].ring.closed && trace[k].replayed == trace[k].selected
    ensures forall n :: trace[k].cursor <= n < |trace[k].ring.history| ==> Passed(trace[k], n)
  {
    RunKeepsInv(b, trace, steps, k);
  }

  /** A follower waiting on an empty channel that dropped nothing it still needs is caught up. */
  lemma IdleStreamIsCaughtUp(b: Bounds, trace: seq<State>, steps: seq<Step>, k: nat)
    requires IsRun(b, trace, steps) && k < |trace|
    requires trace[k].phase == Following && trace[k].ch.queue == []
    requires forall n :: n in trace[k].lost ==> n < trace[k].next
    ensures trace[k].next == |trace[k].ring.history|
  {
    RunKeepsInv(b, trace, steps, k);
    var s := trace[k];
    assert !Covered(s, s.next);
  }

  /** Every snapshot step of every run selects what the reader was promised of the entries held at
      that moment, and the stream keeps to that selection. */
  lemma SnapshotIsChosen(b: Bounds, trace: seq<State>, steps: seq<Step>, i: nat, k: nat)
    requires IsRun(b, trace, steps) && i < k < |trace| && steps[i] == SnapshotStep
    ensures
      var s := trace[i];
      s.ring.first <= |s.ring.history| &&
      Chosen(s.ring.history[s.ring.first..], s.sel.since, s.sel.tail, trace[k].selected) &&
      trace[k].cursor == |s.ring.history| && trace[k].replayed <= trace[k].selected
  {
    RunKeepsInv(b, trace, steps, i);
    RunKeepsInv(b, trace, steps, k);
    SelectedIsChosen(trace[i].ring.history[trace[i].ring.first..], trace[i].sel.since, trace[i].sel.tail);
    SelectionStays(b, trace, steps, i + 1, k);
  }

  lemma {:induction false} SelectionStays(b: Bounds, trace: seq<State>, steps: seq<Step>, i: nat, k: nat)
    requires IsRun(b, trace, steps) && i <= k < |trace| && !trace[i].phase.Subscribed?
    ensures !trace[k].phase.Subscribed? && trace[k].selected == trace[i].selected && trace[k].cursor == trace[i].cursor
  {
    if i < k {
      SelectionStays(b, trace, steps, i, k - 1);
      assert Next(b, trace[k - 1], steps[k - 1], trace[k]);
    }
  }

  /** A reader that does not follow is given its snapshot and nothing else: the stream never waits
      on the channel, and when it ends the whole snapshot was sent. */
  lemma {:induction false} SnapshotAlone(b: Bounds, trace: seq<State>, steps: seq<Step>, k: nat)
    requires IsRun(b, trace, steps) && k < |trace| && !trace[0].sel.follow
    ensures
      var s := trace[k];
      s.sel == trace[0].sel && s.sent == [] &&
      (s.phase.Subscribed? || s.phase.Replaying? || s.phase.Finished? || s.phase.Cancelled?) &&
      (s.phase.Finished? ==> s.replayed == s.selected)
  {
    RunKeepsInv(b, trace, steps, k);
    if k > 0 {
      SnapshotAlone(b, trace, steps, k - 1);
      assert Next(b, trace[k - 1], steps[k - 1], trace[k]);
    }
  }
}
