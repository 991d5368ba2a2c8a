/** What the rings hold: the drain protocol with the bytes each pump reads, the chunks its line
    writer still has to append, and every ring's history. */
module DrainContent {
  import opened Bytes
  import opened LogLines
  import opened LineEmits
  import opened Drain

  /** A pump's line writer: its ring, all it was given, the chunks of the write in progress not yet
      appended, what it holds back, and whether its Close has begun. */
  datatype Tap = Tap(ring: nat, read: ByteString, pending: seq<Chunk>, held: ByteString, closing: bool)

  /** A ring's entry, and the writer it came from. */
  datatype Logged = Logged(from: Token, chunk: Chunk)

  /** The protocol's state, with every ring's history and every writer ever opened. */
  datatype Full = Full(core: State, logs: seq<seq<Logged>>, taps: map<Token, Tap>)

  datatype FullStep =
    | Core(step: Step)                            // PumpLine appends the next pending chunk
    | ReadMore(g: nat, i: nat, bytes: ByteString) // the pump's next Write begins
    | BeginClose(g: nat, i: nat)                  // the pump saw the end: Close flushes what is held

  function WriterAt(s: State, t: Token): Writer {
    if t.0 < |s.insts| && 1 <= t.1 <= |s.insts[t.0].writers| then s.insts[t.0].writers[t.1 - 1] else Absent
  }

  predicate IsOpened(w: Writer) { w.Open? || w.Shut? }

  function LostBy(s: State, t: Token): seq<Chunk> {
    if t.0 < |s.insts| then s.insts[t.0].lost else []
  }

  /** The chunks of one writer in a ring's history. */
  function LoggedBy(log: seq<Logged>, t: Token): seq<Chunk> {
    if log == [] then []
    else
      var before, e := LoggedBy(log[..|log| - 1], t), log[|log| - 1];
      if e.from == t then before + [e.chunk] else before
  }

  predicate CoreNext(f: Full, step: Step, f': Full) {
    Next(f.core, step, f'.core) &&
    match step
    case LookupRing(_, _) =>
      f'.taps == f.taps && f'.logs == if |f'.core.rings| > |f.core.rings| then f.logs + [[]] else f.logs
    case OpenWriter(g, i) =>
      f'.logs == f.logs && f'.taps == f.taps[(g, i + 1) := Tap(f.core.insts[g].writers[i].ring, [], [], [], false)]
    case PumpLine(g, i, line) =>
      (g, i + 1) in f.taps &&
      var tap := f.taps[(g, i + 1)];
      tap.pending != [] && line == tap.pending[0] &&
      f'.taps == f.taps[(g, i + 1) := tap.(pending := tap.pending[1..])] &&
      tap.ring < |f.logs| &&
      f'.logs == if f.core.rings[f.core.insts[g].writers[i].ring] then f.logs
                 else f.logs[tap.ring := f.logs[tap.ring] + [Logged((g, i + 1), line)]]
    case ShutWriter(g, i) =>
      (g, i + 1) in f.taps && f.taps[(g, i + 1)].closing && f.taps[(g, i + 1)].pending == [] &&
      f'.taps == f.taps && f'.logs == f.logs
    case _ => f'.taps == f.taps && f'.logs == f.logs
  }

  predicate FullNext(max: nat, f: Full, step: FullStep, f': Full)
    requires max > 0
  {
    match step
    case Core(c) => CoreNext(f, c, f')
    case ReadMore(g, i, bytes) =>
      var t := (g, i + 1);
      WriterAt(f.core, t).Open? && t in f.taps &&
      var tap := f.taps[t];
      !tap.closing && tap.pending == [] &&
      f' == f.(taps := f.taps[t := tap.(read := tap.read + bytes, pending := Emits(tap.held + bytes, max),
                                        held := RestOf(tap.held + bytes, max))])
    case BeginClose(g, i) =>
      var t := (g, i + 1);
      WriterAt(f.core, t).Open? && t in f.taps &&
      var tap := f.taps[t];
      !tap.closing && tap.pending == [] &&
      f' == f.(taps := f.taps[t := tap.(pending := if tap.held == [] then [] else [Chunk(tap.held, true)],
                                        held := [], closing := true)])
  }

  /** What a writer appended and has pending, with what it holds, says all it was given. */
  ghost predicate Says(max: nat, out: seq<Chunk>, tap: Tap) {
    if tap.closing then tap.held == [] && Join(out) == Split(tap.read) && Bounded(out, max)
    else Accounts(out, tap.held, tap.read, max)
  }

  /** Writer t, opened: it is where the protocol has it, and unless its instance lost a chunk its
      ring's history is right. */
  ghost predicate TapInv(max: nat, f: Full, t: Token)
    requires t in f.taps
  {
    var tap, w := f.taps[t], WriterAt(f.core, t);
    tap.ring < |f.logs| && IsOpened(w) && (w.Open? ==> w.ring == tap.ring) &&
    (w.Shut? ==> tap.closing && tap.pending == []) &&
    (LostBy(f.core, t) == [] ==> Says(max, LoggedBy(f.logs[tap.ring], t) + tap.pending, tap))
  }

  /** Nothing is logged under a name no writer has. */
  predicate Unlogged(logs: seq<seq<Logged>>, t: Token) {
    forall r :: 0 <= r < |logs| ==> LoggedBy(logs[r], t) == []
  }

  ghost predicate TapOk(max: nat, f: Full, t: Token) {
    (IsOpened(WriterAt(f.core, t)) ==> t in f.taps) &&
    if t in f.taps then TapInv(max, f, t) else Unlogged(f.logs, t)
  }

  ghost predicate ContentInv(max: nat, f: Full) {
    |f.logs| == |f.core.rings| && forall t: Token :: TapOk(max, f, t)
  }

  /** A writer a step does not touch. */
  predicate SameWriter(w: Writer, w': Writer) {
    w' == w || (!IsOpened(w) && !IsOpened(w'))
  }

  /** The account of a writer that a step leaves alone. */
  lemma Spared(max: nat, f: Full, f': Full, t: Token)
    requires TapOk(max, f, t) && SameWriter(WriterAt(f.core, t), WriterAt(f'.core, t))
    requires LostBy(f'.core, t) == [] ==> LostBy(f.core, t) == []
    requires (t in f'.taps <==> t in f.taps) && (t in f.taps ==> f'.taps[t] == f.taps[t])
    requires |f'.logs| >= |f.logs|
    requires forall r :: 0 <= r < |f.logs| ==> LoggedBy(f'.logs[r], t) == LoggedBy(f.logs[r], t)
    requires forall r :: |f.logs| <= r < |f'.logs| ==> f'.logs[r] == []
    ensures TapOk(max, f', t)
  {
  }

  lemma LoggedBySnoc(log: seq<Logged>, e: Logged, t: Token)
    ensures LoggedBy(log + [e], t) == if e.from == t then LoggedBy(log, t) + [e.chunk] else LoggedBy(log, t)
  {
    assert (log + [e])[..|log|] == log;
  }

  /** Steps that leave every opened writer and every history as they are. */
  lemma QuietKeepsContent(max: nat, f: Full, step: Step, f': Full)
    requires Inv(f.core) && ContentInv(max, f) && CoreNext(f, step, f')
    requires !step.OpenWriter? && !step.PumpLine? && !step.ShutWriter? && !step.LookupRing?
    ensures ContentInv(max, f')
  {
    forall t: Token
      ensures TapOk(max, f', t)
    {
      assert TapOk(max, f, t);
      QuietWriter(f.core, step, f'.core, t);
      Spared(max, f, f', t);
    }
  }

  lemma QuietWriter(s: State, step: Step, s': State, t: Token)
    requires Inv(s) && Next(s, step, s')
    requires !step.OpenWriter? && !step.PumpLine? && !step.ShutWriter? && !step.LookupRing?
    ensures SameWriter(WriterAt(s, t), WriterAt(s', t)) && LostBy(s', t) == LostBy(s, t) && |s'.rings| == |s.rings|
  {
  }

  lemma LookupKeepsContent(max: nat, f: Full, g: nat, i: nat, f': Full)
    requires Inv(f.core) && ContentInv(max, f) && CoreNext(f, LookupRing(g, i), f')
    ensures ContentInv(max, f')
  {
    forall t: Token
      ensures TapOk(max, f', t)
    {
      assert TapOk(max, f, t);
      Spared(max, f, f', t);
    }
  }

  lemma OpenKeepsContent(max: nat, f: Full, g: nat, i: nat, f': Full)
    requires Inv(f.core) && ContentInv(max, f) && CoreNext(f, OpenWriter(g, i), f')
    ensures ContentInv(max, f')
  {
    var own := (g, i + 1);
    forall t: Token
      ensures TapOk(max, f', t)
    {
      assert TapOk(max, f, t);
      if t != own {
        Spared(max, f, f', t);
      } else {
        assert AllOf(f.core, g) && WriterInv(f.core, g, i);
        assert LoggedBy(f.logs[f'.taps[own].ring], own) + [] == [];
        assert Accounts([], [], [], max);
      }
    }
  }

  lemma ShutKeepsContent(max: nat, f: Full, g: nat, i: nat, f': Full)
    requires Inv(f.core) && ContentInv(max, f) && CoreNext(f, ShutWriter(g, i), f')
    ensures ContentInv(max, f')
  {
    forall t: Token
      ensures TapOk(max, f', t)
    {
      assert TapOk(max, f, t);
      if t != (g, i + 1) {
        Spared(max, f, f', t);
      }
    }
  }

  /** Appending the next pending chunk moves it from pending to the ring's history. */
  lemma AppendKeepsContent(max: nat, f: Full, g: nat, i: nat, line: Chunk, f': Full)
    requires Inv(f.core) && ContentInv(max, f) && CoreNext(f, PumpLine(g, i, line), f')
    ensures ContentInv(max, f')
  {
    var own := (g, i + 1);
    var tap := f.taps[own];
    var ended := f.core.rings[f.core.insts[g].writers[i].ring];
    forall t: Token
      ensures TapOk(max, f', t)
    {
      assert TapOk(max, f, t);
      if t != own {
        LogsElsewhere(f, f', tap.ring, own, line, t);
        Spared(max, f, f', t);
      } else if !ended {
        LoggedBySnoc(f.logs[tap.ring], Logged(own, line), own);
        MovePending(LoggedBy(f.logs[tap.ring], own), tap.pending);
      }
    }
  }

  lemma MovePending(out: seq<Chunk>, pending: seq<Chunk>)
    requires pending != []
    ensures out + [pending[0]] + pending[1..] == out + pending
  {
  }

  lemma LogsElsewhere(f: Full, f': Full, ring: nat, own: Token, line: Chunk, t: Token)
    requires t != own && ring < |f.logs|
    requires f'.logs == f.logs || f'.logs == f.logs[ring := f.logs[ring] + [Logged(own, line)]]
    ensures forall r :: 0 <= r < |f.logs| ==> LoggedBy(f'.logs[r], t) == LoggedBy(f.logs[r], t)
  {
    LoggedBySnoc(f.logs[ring], Logged(own, line), t);
  }

  lemma ReadKeepsContent(max: nat, f: Full, g: nat, i: nat, bytes: ByteString, f': Full)
    requires max > 0 && ContentInv(max, f) && FullNext(max, f, ReadMore(g, i, bytes), f')
    ensures ContentInv(max, f')
  {
    var own := (g, i + 1);
    forall t: Token
      ensures TapOk(max, f', t)
    {
      assert TapOk(max, f, t);
      if t != own {
        Spared(max, f, f', t);
      } else if LostBy(f.core, own) == [] {
        var tap := f.taps[own];
        var out := LoggedBy(f.logs[tap.ring], own);
        assert out + [] == out;
        WriteAccounts(out, tap.held, tap.read, max, bytes);
      }
    }
  }

  lemma CloseKeepsContent(max: nat, f: Full, g: nat, i: nat, f': Full)
    requires max > 0 && ContentInv(max, f) && FullNext(max, f, BeginClose(g, i), f')
    ensures ContentInv(max, f')
  {
    var own := (g, i + 1);
    forall t: Token
      ensures TapOk(max, f', t)
    {
      assert TapOk(max, f, t);
      if t != own {
        Spared(max, f, f', t);
      } else if LostBy(f.core, own) == [] {
        var tap := f.taps[own];
        var out := LoggedBy(f.logs[tap.ring], own);
        assert out + [] == out;
        FlushAccounts(out, tap.held, tap.read, max);
      }
    }
  }

  lemma StepKeepsContent(max: nat, f: Full, step: FullStep, f': Full)
    requires max > 0 && Inv(f.core) && ContentInv(max, f) && FullNext(max, f, step, f')
    ensures ContentInv(max, f')
  {
    match step
    case ReadMore(g, i, bytes) => ReadKeepsContent(max, f, g, i, bytes, f');
    case BeginClose(g, i) => CloseKeepsContent(max, f, g, i, f');
    case Core(OpenWriter(g, i)) => OpenKeepsContent(max, f, g, i, f');
    case Core(PumpLine(g, i, line)) => AppendKeepsContent(max, f, g, i, line, f');
    case Core(ShutWriter(g, i)) => ShutKeepsContent(max, f, g, i, f');
    case Core(LookupRing(g, i)) => LookupKeepsContent(max, f, g, i, f');
    case Core(c) => QuietKeepsContent(max, f, c, f');
  }

  /** A run of the whole: any steps, in any order. */
  predicate IsFullRun(max: nat, trace: seq<Full>, steps: seq<FullStep>)
    requires max > 0
  {
    |trace| == |steps| + 1 && trace[0] == Full(START, [], map[]) &&
    forall i :: 0 <= i < |steps| ==> FullNext(max, trace[i], steps[i], trace[i + 1])
  }

  lemma {:induction false} FullRunKeepsInv(max: nat, trace: seq<Full>, steps: seq<FullStep>, n: nat)
    requires max > 0 && IsFullRun(max, trace, steps) && n < |trace|
    ensures Inv(trace[n].core) && ContentInv(max, trace[n])
  {
    if n > 0 {
      FullRunKeepsInv(max, trace, steps, n - 1);
      var f, step, f' := trace[n - 1], steps[n - 1], trace[n];
      StepKeepsContent(max, f, step, f');
      if step.Core? {
        StepKeepsInv(f.core, step.step, f'.core);
      }
    }
  }

  /** In every run: once an instance's drain has reported that everything drained, the history of
      each of its pumps' rings holds every byte that pump read, as exactly its lines and tail; and
      that is still so after the ring is ended. */
  lemma DrainedRingHoldsAll(max: nat, trace: seq<Full>, steps: seq<FullStep>, n: nat, g: nat, i: nat)
    requires max > 0 && IsFullRun(max, trace, steps) && n < |trace| && g < |trace[n].core.insts|
    requires i < |trace[n].core.insts[g].writers|
    requires var e := trace[n].core.insts[g].exit; (e.Drained? || e.Ended?) && e.all
    ensures
      var f, t := trace[n], (g, i + 1);
      t in f.taps && f.taps[t].ring < |f.logs| &&
      var chunks := LoggedBy(f.logs[f.taps[t].ring], t);
      Join(chunks) == Split(f.taps[t].read) && Bounded(chunks, max)
  {
    FullRunKeepsInv(max, trace, steps, n);
    var f, t := trace[n], (g, i + 1);
    assert AllOf(f.core, g) && TapOk(max, f, t);
    var chunks := LoggedBy(f.logs[f.taps[t].ring], t);
    assert chunks + [] == chunks;
  }

  /** In every run, before an instance's ring is ended, nothing is missing either: what a writer has
      appended, what it has pending and what it holds say every byte it was given. */
  lemma OpenRingAccounts(max: nat, trace: seq<Full>, steps: seq<FullStep>, n: nat, t: Token)
    requires max > 0 && IsFullRun(max, trace, steps) && n < |trace| && t in trace[n].taps
    requires t.0 < |trace[n].core.insts| && !trace[n].core.insts[t.0].exit.Ended?
    ensures
      var f := trace[n];
      f.taps[t].ring < |f.logs| && Says(max, LoggedBy(f.logs[f.taps[t].ring], t) + f.taps[t].pending, f.taps[t])
  {
    FullRunKeepsInv(max, trace, steps, n);
    assert AllOf(trace[n].core, t.0) && TapOk(max, trace[n], t);
  }
}
