/** Once the ring is closed the follow stream ends by itself, having passed every entry held. */
module FollowEnds {
  import opened LogRing
  import opened Follow
  import opened FollowSafety

  /** A step of the follower, the reader's leaving included; the others are the writer's. */
  predicate OfFollower(step: Step) { !step.AppendStep? && !step.CloseStep? }

  predicate Ended(s: State) { s.phase.Finished? || s.phase.Cancelled? }

  /** The most steps a follower takes from Following with q entries queued, of a history of n. */
  function Drains(q: nat, n: nat): nat {
    if q == 0 then n + 4 else Drains(q - 1, n) + n + 5
  }

  /** The most steps a follower still takes once the ring is closed. */
  function Work(s: State): nat {
    var n, idle := |s.ring.history|, Drains(|s.ch.queue|, |s.ring.history|);
    match s.phase
    case Subscribed => idle + n + 2
    case Replaying(rest) => idle + |rest| + 1
    case Following => idle
    case Fetching(Received(_)) => idle + n + 3
    case Fetching(ChannelEnded) => n + 3
    case CatchingUp(rest, Received(_)) => idle + |rest| + 2
    case CatchingUp(rest, ChannelEnded) => |rest| + 1
    case Sending(_) => idle + 1
    case Finished => 0
    case Cancelled => 0
  }

  lemma {:induction false} DrainsAtMost(q: nat, n: nat)
    ensures n + 4 <= Drains(q, n) <= (q + 1) * (n + 5)
  {
    if q > 0 {
      DrainsAtMost(q - 1, n);
      assert q * (n + 5) + (n + 5) == (q + 1) * (n + 5);
    }
  }

  /** Entries in order are no more than the history has. */
  lemma {:induction false} InOrderIsShort(h: seq<Entry>, es: seq<Entry>, i: nat)
    requires InOrder(h, es) && i < |es|
    ensures i <= es[i].seqno
  {
    if i > 0 {
      InOrderIsShort(h, es, i - 1);
    }
  }

  lemma SelectedIsShort(b: Bounds, s: State)
    requires Sound(b, s.ring)
    ensures |Selected(s.ring.history[s.ring.first..], s.sel.since, s.sel.tail)| <= |s.ring.history|
  {
    SelectedInOrder(s.ring.history, s.ring.first, s.sel.since, s.sel.tail);
    var es := Selected(s.ring.history[s.ring.first..], s.sel.since, s.sel.tail);
    if es != [] {
      InOrderIsShort(s.ring.history, es, |es| - 1);
    }
  }

  /** A closed ring stays as it is, and a step of the writer on it changes nothing at all. */
  lemma ClosedStays(b: Bounds, s: State, step: Step, s': State)
    requires Inv(b, s) && s.ring.closed && Next(b, s, step, s')
    ensures s'.ring == s.ring && (!OfFollower(step) ==> s' == s)
  {
  }

  /** Every step of the follower brings its end closer. */
  lemma FollowerStepDescends(b: Bounds, s: State, step: Step, s': State)
    requires Inv(b, s) && s.ring.closed && Next(b, s, step, s') && OfFollower(step) && !Ended(s)
    ensures Work(s') < Work(s)
  {
    DrainsAtMost(|s.ch.queue|, |s.ring.history|);
    match step
    case SnapshotStep => SelectedIsShort(b, s);
    case ReceiveStep => ReceiveDescends(s, s');
    case FetchStep => FetchDescends(s, s');
    case CatchUpStep => CatchUpDescends(s, s');
    case _ =>
  }

  lemma FetchDescends(s: State, s': State)
    requires s.phase.Fetching? && s.ring.first <= |s.ring.history|
    requires s' == s.(phase := CatchingUp(HeldFrom(s.ring, s.next), s.phase.why))
    ensures Work(s') < Work(s)
  {
  }

  lemma CatchUpDescends(s: State, s': State)
    requires s.phase.CatchingUp? && s'.ring == s.ring && s'.ch == s.ch
    requires s'.phase == if s.phase.rest != [] then s.phase.(rest := s.phase.rest[1..])
                         else AfterCatchUp(s, s.phase.why)
    ensures Work(s') < Work(s)
  {
  }

  lemma ReceiveDescends(s: State, s': State)
    requires s.phase == Following && s'.ring == s.ring
    requires if s.ch.queue != [] then
               s'.ch.queue == s.ch.queue[1..] && s'.phase == AfterReceive(s, s.ch.queue[0])
             else s'.phase == Fetching(ChannelEnded)
    ensures Work(s') < Work(s)
  {
  }

  /** A follower that has not ended always has a step to take, without its reader leaving. */
  lemma FollowerIsNeverStuck(b: Bounds, s: State) returns (step: Step, s': State)
    requires Inv(b, s) && s.ring.closed && !Ended(s)
    ensures OfFollower(step) && !step.CancelStep? && Next(b, s, step, s')
  {
    match s.phase
    case Subscribed =>
      step := SnapshotStep;
      var selected := Selected(s.ring.history[s.ring.first..], s.sel.since, s.sel.tail);
      s' := s.(phase := Replaying(selected), selected := selected,
               next := |s.ring.history|, cursor := |s.ring.history|);
    case Replaying(rest) =>
      step := ReplayStep;
      s' := if rest != [] then s.(phase := Replaying(rest[1..]), replayed := s.replayed + [rest[0]])
            else s.(phase := if s.sel.follow then Following else Finished);
    case Following =>
      step := ReceiveStep;
      s' := if s.ch.queue != [] then
              s.(ch := s.ch.(queue := s.ch.queue[1..]), phase := AfterReceive(s, s.ch.queue[0]))
            else s.(phase := Fetching(ChannelEnded));
    case Fetching(why) =>
      step := FetchStep;
      s' := s.(phase := CatchingUp(HeldFrom(s.ring, s.next), why));
    case CatchingUp(rest, why) =>
      step := CatchUpStep;
      s' := if rest != [] then
              s.(phase := CatchingUp(rest[1..], why), sent := s.sent + [rest[0]], next := rest[0].seqno + 1)
            else s.(phase := AfterCatchUp(s, why));
    case Sending(e) =>
      step := SendStep;
      s' := s.(phase := Following, sent := s.sent + [e], next := e.seqno + 1);
  }

  /** How many of the steps from c to k are the follower's. */
  function Taken(steps: seq<Step>, c: nat, k: nat): nat
    requires c <= k <= |steps|
  {
    if c == k then 0 else Taken(steps, c, k - 1) + if OfFollower(steps[k - 1]) then 1 else 0
  }

  /** After the ring closed, every follower step but those of an ended stream is paid for. */
  lemma {:induction false} WorkPaysForSteps(b: Bounds, trace: seq<State>, steps: seq<Step>, c: nat, k: nat)
    requires IsRun(b, trace, steps) && c <= k < |trace| && trace[c].ring.closed
    ensures trace[k].ring == trace[c].ring
    ensures Ended(trace[k]) || Work(trace[k]) + Taken(steps, c, k) <= Work(trace[c])
  {
    if c < k {
      WorkPaysForSteps(b, trace, steps, c, k - 1);
      RunKeepsInv(b, trace, steps, k - 1);
      var s, step, s' := trace[k - 1], steps[k - 1], trace[k];
      ClosedStays(b, s, step, s');
      if Ended(s) {
        EndedStays(b, s, step, s');
      } else if OfFollower(step) {
        FollowerStepDescends(b, s, step, s');
      }
    }
  }

  lemma EndedStays(b: Bounds, s: State, step: Step, s': State)
    requires Next(b, s, step, s') && Ended(s)
    ensures Ended(s')
  {
  }

  /** The most steps a follower takes after Close, with q entries queued and n in the history. */
  function Budget(q: nat, n: nat): nat { Drains(q, n) + n + 3 }

  lemma BudgetIs(q: nat, n: nat)
    ensures Budget(q, n) < (q + 2) * (n + 5)
  {
    DrainsAtMost(q, n);
    assert (q + 2) * (n + 5) == (q + 1) * (n + 5) + (n + 5);
  }

  lemma WorkAtMost(s: State)
    requires ReplayInv(s) && FetchInv(s)
    ensures Work(s) <= Budget(|s.ch.queue|, |s.ring.history|)
  {
    DrainsAtMost(|s.ch.queue|, |s.ring.history|);
    if s.phase.Replaying? && s.phase.rest != [] {
      assert |s.selected| == |s.replayed| + |s.phase.rest|;
      InOrderIsShort(s.ring.history, s.selected, |s.selected| - 1);
    }
  }

  /** Only its reader cancels a stream. */
  lemma {:induction false} CancelledByReader(b: Bounds, trace: seq<State>, steps: seq<Step>, c: nat, k: nat)
    requires IsRun(b, trace, steps) && c <= k < |trace| && !trace[c].phase.Cancelled?
    requires forall i :: c <= i < k ==> !steps[i].CancelStep?
    ensures !trace[k].phase.Cancelled?
  {
    if c < k {
      CancelledByReader(b, trace, steps, c, k - 1);
      assert Next(b, trace[k - 1], steps[k - 1], trace[k]);
    }
  }

  /** While its reader stays, all the follower's steps after Close are paid for: an ended stream
      has none left to take. */
  lemma {:induction false} StayingPays(b: Bounds, trace: seq<State>, steps: seq<Step>, c: nat, k: nat)
    requires IsRun(b, trace, steps) && c <= k < |trace| && trace[c].ring.closed
    requires forall i :: c <= i < k ==> !steps[i].CancelStep?
    ensures Taken(steps, c, k) <= Work(trace[c])
  {
    if c < k {
      StayingPays(b, trace, steps, c, k - 1);
      WorkPaysForSteps(b, trace, steps, c, k - 1);
      WorkIsLeft(trace[k - 1]);
      if OfFollower(steps[k - 1]) {
        OnlyUnendedSteps(b, trace[k - 1], steps[k - 1], trace[k]);
      }
    }
  }

  lemma OnlyUnendedSteps(b: Bounds, s: State, step: Step, s': State)
    requires Next(b, s, step, s') && OfFollower(step) && !step.CancelStep?
    ensures !Ended(s)
  {
  }

  /** The follower can go on, without its reader leaving. */
  ghost predicate CanStep(b: Bounds, s: State) {
    exists step: Step, s': State :: OfFollower(step) && !step.CancelStep? && Next(b, s, step, s')
  }

  /** After Close the stream ends, in every run whose reader stays: the follower takes fewer steps
      than a bound fixed at the close; until it has finished it has a step to take, so it stops
      only there; and a follow stream has by then sent the whole snapshot and passed every entry
      there ever was. */
  lemma ClosedStreamEnds(b: Bounds, trace: seq<State>, steps: seq<Step>, c: nat, k: nat)
    requires IsRun(b, trace, steps) && c <= k < |trace| && trace[c].ring.closed && !trace[c].phase.Cancelled?
    requires forall i :: c <= i < k ==> !steps[i].CancelStep?
    ensures Taken(steps, c, k) < (|trace[c].ch.queue| + 2) * (|trace[c].ring.history| + 5)
    ensures trace[k].phase == Finished <==> !CanStep(b, trace[k])
    ensures trace[k].phase == Finished && trace[k].sel.follow ==>
      trace[k].replayed == trace[k].selected &&
      forall n :: trace[k].cursor <= n < |trace[k].ring.history| ==> Passed(trace[k], n)
  {
    TakenInBudget(b, trace, steps, c, k);
    FinishedExactly(b, trace, steps, c, k);
    if trace[k].phase == Finished && trace[k].sel.follow {
      EndedStreamIsComplete(b, trace, steps, k);
    }
  }

  lemma TakenInBudget(b: Bounds, trace: seq<State>, steps: seq<Step>, c: nat, k: nat)
    requires IsRun(b, trace, steps) && c <= k < |trace| && trace[c].ring.closed
    requires forall i :: c <= i < k ==> !steps[i].CancelStep?
    ensures Taken(steps, c, k) < (|trace[c].ch.queue| + 2) * (|trace[c].ring.history| + 5)
  {
    StayingPays(b, trace, steps, c, k);
    RunKeepsInv(b, trace, steps, c);
    WorkAtMost(trace[c]);
    BudgetIs(|trace[c].ch.queue|, |trace[c].ring.history|);
  }

  lemma FinishedExactly(b: Bounds, trace: seq<State>, steps: seq<Step>, c: nat, k: nat)
    requires IsRun(b, trace, steps) && c <= k < |trace| && trace[c].ring.closed && !trace[c].phase.Cancelled?
    requires forall i :: c <= i < k ==> !steps[i].CancelStep?
    ensures trace[k].phase == Finished <==> !CanStep(b, trace[k])
  {
    CancelledByReader(b, trace, steps, c, k);
    if trace[k].phase == Finished {
      forall step: Step, s': State | OfFollower(step)
        ensures !Next(b, trace[k], step, s')
      {
      }
    } else {
      WorkPaysForSteps(b, trace, steps, c, k);
      RunKeepsInv(b, trace, steps, k);
      var step, s' := FollowerIsNeverStuck(b, trace[k]);
    }
  }

  lemma WorkIsLeft(s: State)
    ensures Work(s) == 0 <==> Ended(s)
  {
    DrainsAtMost(|s.ch.queue|, |s.ring.history|);
  }

  /** Steps of the follower alone, its reader staying, from a state on. */
  ghost predicate IsFollowed(b: Bounds, trace: seq<State>, steps: seq<Step>) {
    |trace| == |steps| + 1 &&
    forall i :: 0 <= i < |steps| ==>
                OfFollower(steps[i]) && !steps[i].CancelStep? && Next(b, trace[i], steps[i], trace[i + 1])
  }

  lemma FollowedLonger(b: Bounds, s: State, step: Step, trace: seq<State>, steps: seq<Step>)
    requires IsFollowed(b, trace, steps) && OfFollower(step) && !step.CancelStep? && Next(b, s, step, trace[0])
    ensures IsFollowed(b, [s] + trace, [step] + steps)
  {
    var trace', steps' := [s] + trace, [step] + steps;
    forall i | 0 <= i < |steps'|
      ensures OfFollower(steps'[i]) && !steps'[i].CancelStep? && Next(b, trace'[i], steps'[i], trace'[i + 1])
    {
      if i > 0 {
        assert trace'[i] == trace[i - 1] && trace'[i + 1] == trace[i] && steps'[i] == steps[i - 1];
      }
    }
  }

  /** From every state after Close there is a schedule of follower steps alone that finishes the
      stream. */
  lemma {:induction false} ClosedStreamCanEnd(b: Bounds, s: State) returns (trace: seq<State>, steps: seq<Step>)
    requires Inv(b, s) && s.ring.closed && !s.phase.Cancelled?
    ensures IsFollowed(b, trace, steps) && trace[0] == s && trace[|steps|].phase.Finished? && |steps| <= Work(s)
    decreases Work(s)
  {
    if s.phase.Finished? {
      return [s], [];
    }
    var step, s' := FollowerIsNeverStuck(b, s);
    FollowerStepDescends(b, s, step, s');
    StepKeepsInv(b, s, step, s');
    var trace', steps' := ClosedStreamCanEnd(b, s');
    FollowedLonger(b, s, step, trace', steps');
    trace, steps := [s] + trace', [step] + steps';
  }

  /** Every run that reached the close with its reader there goes on, by follower steps alone, to
      one that finishes. */
  lemma ClosedRunCanEnd(b: Bounds, trace: seq<State>, steps: seq<Step>)
    returns (trace': seq<State>, steps': seq<Step>)
    requires IsRun(b, trace, steps) && trace[|steps|].ring.closed && !trace[|steps|].phase.Cancelled?
    ensures IsRun(b, trace', steps') && trace <= trace' && steps <= steps' && trace'[|steps'|].phase.Finished?
    ensures forall i :: |steps| <= i < |steps'| ==> OfFollower(steps'[i]) && !steps'[i].CancelStep?
  {
    RunKeepsInv(b, trace, steps, |steps|);
    var rest, more := ClosedStreamCanEnd(b, trace[|steps|]);
    trace', steps' := trace + rest[1..], steps + more;
    RunThenFollowed(b, trace, steps, rest, more);
  }

  lemma RunThenFollowed(b: Bounds, trace: seq<State>, steps: seq<Step>, rest: seq<State>, more: seq<Step>)
    requires IsRun(b, trace, steps) && IsFollowed(b, rest, more) && rest[0] == trace[|steps|]
    ensures IsRun(b, trace + rest[1..], steps + more)
  {
    var trace', steps' := trace + rest[1..], steps + more;
    forall i | 0 <= i < |steps'|
      ensures Next(b, trace'[i], steps'[i], trace'[i + 1])
    {
      Joint(trace, steps, rest, more, i);
      if i < |steps| {
        assert Next(b, trace[i], steps[i], trace[i + 1]);
      } else {
        assert Next(b, rest[i - |steps|], more[i - |steps|], rest[i - |steps| + 1]);
      }
    }
  }

  /** Where step i of a run and its continuation comes from. */
  lemma Joint<S, T>(trace: seq<S>, steps: seq<T>, rest: seq<S>, more: seq<T>, i: nat)
    requires |trace| == |steps| + 1 && |rest| == |more| + 1 && rest[0] == trace[|steps|] && i < |steps + more|
    ensures
      var trace', n := trace + rest[1..], |steps|;
      if i < n then trace'[i] == trace[i] && trace'[i + 1] == trace[i + 1] && (steps + more)[i] == steps[i]
      else trace'[i] == rest[i - n] && trace'[i + 1] == rest[i - n + 1] && (steps + more)[i] == more[i - n]
  {
  }
}
