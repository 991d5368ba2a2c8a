/** One artifact pull's files, step by step: every blob's partial file, the temporary its commit
    writes, and the committed copy, under a semaphore of at most k holders. */
module Pull {
  import opened Space

  /** Where a blob's fetch stands; every phase from Opening to Leaving holds the semaphore. */
  datatype Phase = Waiting | Opening | Transferring | Committing | Committed | Leaving | Done

  /** One blob's bytes on the volume: its partial file, the commit's temporary, the stored blob. */
  datatype Fetch = Fetch(phase: Phase, file: nat, temp: nat, stored: bool) {
    predicate Holding() { !phase.Waiting? && !phase.Done? }
  }

  datatype State = State(fetches: seq<Fetch>)

  function Holders(s: State): seq<bool> {
    seq(|s.fetches|, i requires 0 <= i < |s.fetches| => s.fetches[i].Holding())
  }

  datatype Step =
    | Acquire(i: nat)              // claim and semaphore
    | Skip(i: nat)                 // cancelled, or found committed, before holding
    | Open(i: nat)                 // open the partial; an overlong one is truncated
    | RestartAtZero(i: nat)        // the server ignored the Range request
    | Receive(i: nat, n: nat)      // bytes appended, at most one past the size
    | EndTransfer(i: nat)          // the body ended
    | CommitWrite(i: nat, n: nat)  // CommitBlob copies into its own temporary
    | CommitDone(i: nat)           // the temporary becomes the stored blob
    | CommitFail(i: nat, poisoned: bool)
    | RemovePartial(i: nat)
    | Fail(i: nat)                 // a transfer error; the partial stays
    | Leave(i: nat)                // semaphore and claim given back

  /** What one step does to its own blob's fetch. */
  predicate Moves(b: Blob, f: Fetch, step: Step, f': Fetch) {
    match step
    case Acquire(_) => f.phase.Waiting? && f' == f.(phase := Opening)
    case Skip(_) => f.phase.Waiting? && f' == f.(phase := Done)
    case Open(_) =>
      f.phase.Opening? &&
      var have := if f.file > b.size then 0 else f.file;
      f' == f.(file := have, phase := if have < b.size then Transferring else Committing)
    case RestartAtZero(_) => f.phase.Transferring? && f' == f.(file := 0)
    case Receive(_, n) => f.phase.Transferring? && f.file + n <= b.size + 1 && f' == f.(file := f.file + n)
    case EndTransfer(_) =>
      f.phase.Transferring? &&
      f' == if f.file > b.size then f.(file := 0, phase := Leaving)
            else f.(phase := if f.file == b.size then Committing else Leaving)
    case CommitWrite(_, n) => f.phase.Committing? && f.temp + n <= b.size && f' == f.(temp := f.temp + n)
    case CommitDone(_) =>
      f.phase.Committing? && f.temp == b.size && f' == f.(temp := 0, stored := true, phase := Committed)
    case CommitFail(_, poisoned) =>
      f.phase.Committing? && f' == f.(temp := 0, file := if poisoned then 0 else f.file, phase := Leaving)
    case RemovePartial(_) => f.phase.Committed? && f' == f.(file := 0, phase := Leaving)
    case Fail(_) => f.phase.Transferring? && f.file <= b.size && f' == f.(phase := Leaving)
    case Leave(_) => f.phase.Leaving? && f' == f.(phase := Done)
  }

  /** One step of the pull: one blob moves, and a new holder needs a free place. */
  predicate Next(bs: seq<Blob>, k: nat, s: State, step: Step, s': State) {
    step.i < |bs| == |s.fetches| == |s'.fetches| &&
    Moves(bs[step.i], s.fetches[step.i], step, s'.fetches[step.i]) &&
    s'.fetches == s.fetches[step.i := s'.fetches[step.i]] &&
    (step.Acquire? ==> MaskCount(Holders(s)) < k)
  }

  predicate Init(bs: seq<Blob>, s: State) {
    |s.fetches| == |bs| && forall i :: 0 <= i < |bs| ==> s.fetches[i] == Fetch(Waiting, bs[i].partial, 0, false)
  }

  /** The bytes one blob has added to the volume since the pull began. */
  function Added(b: Blob, f: Fetch): int {
    f.file - b.partial + f.temp + if f.stored then b.size else 0
  }

  function AllAdded(bs: seq<Blob>, s: State): seq<int>
    requires |s.fetches| == |bs|
  {
    seq(|bs|, i requires 0 <= i < |bs| => Added(bs[i], s.fetches[i]))
  }

  /** What each phase leaves on the volume. */
  predicate FetchInv(b: Blob, f: Fetch) {
    (f.phase.Waiting? ==> f.file == b.partial) && (!f.phase.Committing? ==> f.temp == 0) &&
    (f.stored ==> f.phase.Committed? || ((f.phase.Leaving? || f.phase.Done?) && f.file == 0)) &&
    match f.phase
    case Waiting => true
    case Opening => f.file == b.partial
    case Transferring => f.file <= b.size + 1 && b.size > 0
    case Committing => f.file == b.size && f.temp <= b.size
    case Committed => f.file == b.size && f.stored
    case Leaving => f.file <= b.size
    case Done => f.file <= b.size || f.file == b.partial
  }

  ghost predicate Inv(bs: seq<Blob>, k: nat, s: State) {
    |s.fetches| == |bs| && MaskCount(Holders(s)) <= k &&
    forall i :: 0 <= i < |bs| ==> FetchInv(bs[i], s.fetches[i])
  }

  /** A fetch adds at most the rest of its download, and while it holds the semaphore one
      full-size copy more. */
  lemma FetchStaysInBudget(b: Blob, f: Fetch)
    requires b.size >= 0 && FetchInv(b, f)
    ensures Added(b, f) <= Rest(b) + if f.Holding() then b.size else 0
  {
  }

  lemma MovesKeepInv(b: Blob, f: Fetch, step: Step, f': Fetch)
    requires b.size >= 0 && FetchInv(b, f) && Moves(b, f, step, f')
    ensures FetchInv(b, f')
  {
  }

  lemma {:induction false} CountUpdate(mask: seq<bool>, i: nat, b: bool)
    requires i < |mask|
    ensures MaskCount(mask[i := b]) == MaskCount(mask) - (if mask[i] then 1 else 0) + if b then 1 else 0
  {
    var n := |mask| - 1;
    if i < n {
      CountUpdate(mask[..n], i, b);
      assert mask[i := b][..n] == mask[..n][i := b];
    } else {
      assert mask[i := b][..n] == mask[..n];
    }
  }

  lemma StepKeepsInv(bs: seq<Blob>, k: nat, s: State, step: Step, s': State)
    requires AllSized(bs) && Inv(bs, k, s) && Next(bs, k, s, step, s')
    ensures Inv(bs, k, s')
  {
    MovesKeepInv(bs[step.i], s.fetches[step.i], step, s'.fetches[step.i]);
    StepKeepsCount(bs, k, s, step, s');
    forall i | 0 <= i < |bs|
      ensures FetchInv(bs[i], s'.fetches[i])
    {
    }
  }

  /** Only taking the semaphore makes a holder. */
  lemma OnlyAcquireHolds(b: Blob, f: Fetch, step: Step, f': Fetch)
    requires Moves(b, f, step, f') && f'.Holding() && !f.Holding()
    ensures step.Acquire?
  {
  }

  lemma StepKeepsCount(bs: seq<Blob>, k: nat, s: State, step: Step, s': State)
    requires |s.fetches| == |bs| && MaskCount(Holders(s)) <= k && Next(bs, k, s, step, s')
    ensures MaskCount(Holders(s')) <= k
  {
    var f, f' := s.fetches[step.i], s'.fetches[step.i];
    if f'.Holding() && !f.Holding() {
      OnlyAcquireHolds(bs[step.i], f, step, f');
    }
    assert Holders(s') == Holders(s)[step.i := f'.Holding()];
    CountUpdate(Holders(s), step.i, f'.Holding());
  }

  /** Adding up a bound held by every blob. */
  lemma {:induction false} SumsBounded(added: seq<int>, rests: seq<int>, sizes: seq<int>, mask: seq<bool>)
    requires |added| == |rests| == |sizes| == |mask|
    requires forall i :: 0 <= i < |added| ==> added[i] <= rests[i] + if mask[i] then sizes[i] else 0
    ensures Sum(added) <= Sum(rests) + MaskSum(sizes, mask)
  {
    if added != [] {
      var n := |added| - 1;
      SumsBounded(added[..n], rests[..n], sizes[..n], mask[..n]);
    }
  }

  ghost predicate IsRun(bs: seq<Blob>, k: nat, trace: seq<State>, steps: seq<Step>) {
    |trace| == |steps| + 1 && Init(bs, trace[0]) &&
    forall i :: 0 <= i < |steps| ==> Next(bs, k, trace[i], steps[i], trace[i + 1])
  }

  lemma {:induction false} NobodyHolds(mask: seq<bool>)
    requires forall i :: 0 <= i < |mask| ==> !mask[i]
    ensures MaskCount(mask) == 0
  {
    if mask != [] {
      NobodyHolds(mask[..|mask| - 1]);
    }
  }

  lemma {:induction false} RunKeepsInv(bs: seq<Blob>, k: nat, trace: seq<State>, steps: seq<Step>, n: nat)
    requires AllSized(bs) && IsRun(bs, k, trace, steps) && n < |trace|
    ensures Inv(bs, k, trace[n])
  {
    if n > 0 {
      RunKeepsInv(bs, k, trace, steps, n - 1);
      StepKeepsInv(bs, k, trace[n - 1], steps[n - 1], trace[n]);
    } else {
      NobodyHolds(Holders(trace[0]));
    }
  }

  /** At every step of every schedule, whatever restarts, overruns and failures it meets, the
      pull has added to the volume no more than spaceNeeded said. */
  lemma PullStaysInReservation(bs: seq<Blob>, k: nat, trace: seq<State>, steps: seq<Step>, n: nat)
    requires AllSized(bs) && IsRun(bs, k, trace, steps) && n < |trace|
    ensures |trace[n].fetches| == |bs| && Sum(AllAdded(bs, trace[n])) <= Need(bs, k)
  {
    RunKeepsInv(bs, k, trace, steps, n);
    var s := trace[n];
    var mask := Holders(s);
    forall i | 0 <= i < |bs|
      ensures AllAdded(bs, s)[i] <= Rests(bs)[i] + if mask[i] then Sizes(bs)[i] else 0
    {
      FetchStaysInBudget(bs[i], s.fetches[i]);
    }
    SumsBounded(AllAdded(bs, s), Rests(bs), Sizes(bs), mask);
    TopSumDominates(Sizes(bs), mask, k);
  }
}
