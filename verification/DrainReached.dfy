/** The drain's success is reached: for every output there is a run in which a pump reads exactly
    that, the exit waits for it, and the drain reports that everything drained. */
module DrainReached {
  import opened Bytes
  import opened LogLines
  import opened LineEmits
  import opened Wrappers
  import opened Drain
  import opened DrainContent

  ghost predicate Reached(max: nat, f: Full)
    requires max > 0
  {
    exists trace: seq<Full>, steps: seq<FullStep> :: IsFullRun(max, trace, steps) && trace[|steps|] == f
  }

  lemma StartReached(max: nat)
    requires max > 0
    ensures Reached(max, Full(START, [], map[]))
  {
    assert IsFullRun(max, [Full(START, [], map[])], []);
  }

  lemma StepReached(max: nat, f: Full, step: FullStep, f': Full)
    requires max > 0 && Reached(max, f) && FullNext(max, f, step, f')
    ensures Reached(max, f')
  {
    var trace: seq<Full>, steps: seq<FullStep> :| IsFullRun(max, trace, steps) && trace[|steps|] == f;
    var trace', steps' := trace + [f'], steps + [step];
    forall i | 0 <= i < |steps'|
      ensures FullNext(max, trace'[i], steps'[i], trace'[i + 1])
    {
      if i < |steps| {
        assert trace'[i] == trace[i] && trace'[i + 1] == trace[i + 1] && steps'[i] == steps[i];
      }
    }
    assert IsFullRun(max, trace', steps');
  }

  /** The one writer of the one instance. */
  const PUMP: Token := (0, 1)

  /** The protocol with that writer open, the spawn's hold given back, and the exit waiting. */
  const WAITING := State([Sinks(1, 1, {PUMP})], [false], Some(0), Some(0),
                         [Instance(Released, true, [Open(0, 0)], Draining(0, 1), [])])

  const STARTED := State([], [], None, None, [Instance(NotHeld, false, [Absent], Running, [])])
  const HELD := State([Sinks(1, 1, {(0, 0)})], [], Some(0), None, [Instance(Held(0), false, [Absent], Running, [])])
  const FORKED := HELD.(insts := [Instance(Held(0), true, [Absent], Running, [])])
  const LOOKED := FORKED.(rings := [false], curRing := Some(0),
                          insts := [Instance(Held(0), true, [Ringed(0)], Running, [])])
  const OPENED := LOOKED.(sinks := [Sinks(2, 1, {(0, 0), PUMP})],
                          insts := [Instance(Held(0), true, [Open(0, 0)], Running, [])])
  const FREED := OPENED.(sinks := [Sinks(1, 1, {PUMP})],
                         insts := [Instance(Released, true, [Open(0, 0)], Running, [])])
  const SHUT := WAITING.(sinks := [Sinks(0, 1, {})], insts := [Instance(Released, true, [Shut], Draining(0, 1), [])])
  const DRAINED := SHUT.(insts := [Instance(Released, true, [Shut], Drained(true), [])])

  lemma One<T>(x: T, y: T)
    ensures [x][0 := y] == [y]
  {
  }

  lemma StartStep()
    ensures Next(START, StartInstance(1), STARTED)
  {
    assert seq(1, _ => Absent) == [Absent];
  }

  lemma HoldStep()
    ensures Next(STARTED, TakeHold(0), HELD)
  {
    One(STARTED.insts[0], HELD.insts[0]);
  }

  lemma ForkStep()
    ensures Next(HELD, Fork(0), FORKED)
  {
    One(HELD.insts[0], FORKED.insts[0]);
  }

  lemma LookupStep()
    ensures Next(FORKED, LookupRing(0, 0), LOOKED)
  {
    One(Absent, Ringed(0));
    One(FORKED.insts[0], LOOKED.insts[0]);
  }

  lemma OpenStep()
    ensures Next(LOOKED, OpenWriter(0, 0), OPENED)
  {
    assert {(0, 0)} + {PUMP} == {(0, 0), PUMP};
    One(LOOKED.sinks[0], OPENED.sinks[0]);
    One(Ringed(0), Open(0, 0));
    One(LOOKED.insts[0], OPENED.insts[0]);
  }

  lemma ReleaseStep()
    ensures Next(OPENED, ReleaseHold(0), FREED)
  {
    assert {(0, 0), PUMP} - {(0, 0)} == {PUMP};
    One(OPENED.sinks[0], FREED.sinks[0]);
    One(OPENED.insts[0], FREED.insts[0]);
  }

  lemma DrainStep()
    ensures Next(FREED, BeginDrain(0), WAITING)
  {
    One(FREED.insts[0], WAITING.insts[0]);
  }

  lemma ShutStep()
    ensures Next(WAITING, ShutWriter(0, 0), SHUT)
  {
    assert {PUMP} - {PUMP} == {};
    One(WAITING.sinks[0], SHUT.sinks[0]);
    One(Open(0, 0), Shut);
    One(WAITING.insts[0], SHUT.insts[0]);
  }

  lemma WakeStep()
    ensures Next(SHUT, DrainWakes(0), DRAINED)
  {
    One(SHUT.insts[0], DRAINED.insts[0]);
  }

  /** That state with what the ring took and how the writer stands. */
  function AtWork(log: seq<Logged>, tap: Tap): Full { Full(WAITING, [log], map[PUMP := tap]) }

  lemma SpawnReached(max: nat)
    requires max > 0
    ensures Reached(max, Full(FORKED, [], map[]))
  {
    StartReached(max);
    StartStep();
    StepReached(max, Full(START, [], map[]), Core(StartInstance(1)), Full(STARTED, [], map[]));
    HoldStep();
    StepReached(max, Full(STARTED, [], map[]), Core(TakeHold(0)), Full(HELD, [], map[]));
    ForkStep();
    StepReached(max, Full(HELD, [], map[]), Core(Fork(0)), Full(FORKED, [], map[]));
  }

  lemma OpenedReached(max: nat)
    requires max > 0
    ensures Reached(max, Full(OPENED, [[]], map[PUMP := Tap(0, [], [], [], false)]))
  {
    SpawnReached(max);
    LookupStep();
    StepReached(max, Full(FORKED, [], map[]), Core(LookupRing(0, 0)), Full(LOOKED, [[]], map[]));
    OpenStep();
    var tap := Tap(0, [], [], [], false);
    assert map[][PUMP := tap] == map[PUMP := tap];
    StepReached(max, Full(LOOKED, [[]], map[]), Core(OpenWriter(0, 0)), Full(OPENED, [[]], map[PUMP := tap]));
  }

  lemma WaitingReached(max: nat)
    requires max > 0
    ensures Reached(max, AtWork([], Tap(0, [], [], [], false)))
  {
    OpenedReached(max);
    var taps := map[PUMP := Tap(0, [], [], [], false)];
    ReleaseStep();
    StepReached(max, Full(OPENED, [[]], taps), Core(ReleaseHold(0)), Full(FREED, [[]], taps));
    DrainStep();
    StepReached(max, Full(FREED, [[]], taps), Core(BeginDrain(0)), Full(WAITING, [[]], taps));
  }

  lemma {:induction false} PumpedReached(max: nat, log: seq<Logged>, tap: Tap) returns (log': seq<Logged>)
    requires max > 0 && tap.ring == 0 && Reached(max, AtWork(log, tap))
    ensures Reached(max, AtWork(log', tap.(pending := [])))
    decreases |tap.pending|
  {
    if tap.pending == [] {
      return log;
    }
    var line, tap' := tap.pending[0], tap.(pending := tap.pending[1..]);
    var more := log + [Logged(PUMP, line)];
    PumpStep(max, log, tap);
    StepReached(max, AtWork(log, tap), Core(PumpLine(0, 0, line)), AtWork(more, tap'));
    log' := PumpedReached(max, more, tap');
  }

  lemma PumpStep(max: nat, log: seq<Logged>, tap: Tap)
    requires max > 0 && tap.ring == 0 && tap.pending != []
    ensures FullNext(max, AtWork(log, tap), Core(PumpLine(0, 0, tap.pending[0])),
                     AtWork(log + [Logged(PUMP, tap.pending[0])], tap.(pending := tap.pending[1..])))
  {
    assert [log][0 := log + [Logged(PUMP, tap.pending[0])]] == [log + [Logged(PUMP, tap.pending[0])]];
    var tap' := tap.(pending := tap.pending[1..]);
    assert map[PUMP := tap][PUMP := tap'] == map[PUMP := tap'];
  }

  /** For every output, the state DrainedRingHoldsAll speaks of is reached. */
  lemma DrainCanSucceed(max: nat, bytes: ByteString) returns (f: Full)
    requires max > 0
    ensures Reached(max, f) && f.core == DRAINED && PUMP in f.taps && f.taps[PUMP].read == bytes
  {
    WaitingReached(max);
    var empty := Tap(0, [], [], [], false);
    var read := Tap(0, bytes, Emits(bytes, max), RestOf(bytes, max), false);
    assert [] + bytes == bytes && map[PUMP := empty][PUMP := read] == map[PUMP := read];
    StepReached(max, AtWork([], empty), ReadMore(0, 0, bytes), AtWork([], read));
    var log := PumpedReached(max, [], read);
    log := ClosedReached(max, log, read.(pending := []));
    f := EndReached(max, log, Tap(0, bytes, [], [], true));
  }

  lemma ClosedReached(max: nat, log: seq<Logged>, tap: Tap) returns (log': seq<Logged>)
    requires max > 0 && tap.ring == 0 && tap.pending == [] && !tap.closing && Reached(max, AtWork(log, tap))
    ensures Reached(max, AtWork(log', Tap(0, tap.read, [], [], true)))
  {
    var flushed := tap.(pending := if tap.held == [] then [] else [Chunk(tap.held, true)], held := [], closing := true);
    assert map[PUMP := tap][PUMP := flushed] == map[PUMP := flushed];
    StepReached(max, AtWork(log, tap), BeginClose(0, 0), AtWork(log, flushed));
    log' := PumpedReached(max, log, flushed);
  }

  lemma EndReached(max: nat, log: seq<Logged>, tap: Tap) returns (f: Full)
    requires max > 0 && tap.pending == [] && tap.closing && Reached(max, AtWork(log, tap))
    ensures Reached(max, f) && f == Full(DRAINED, [log], map[PUMP := tap])
  {
    var taps := map[PUMP := tap];
    ShutStep();
    StepReached(max, AtWork(log, tap), Core(ShutWriter(0, 0)), Full(SHUT, [log], taps));
    f := Full(DRAINED, [log], taps);
    WakeStep();
    StepReached(max, Full(SHUT, [log], taps), Core(DrainWakes(0)), f);
  }
}
