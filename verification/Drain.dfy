/** A container's exit: drain its output pumps, then end its ring. Instances of one container
    follow each other across restarts; every lock-granular step may interleave, including a slow
    spawn or a leftover pump of an earlier instance. */
module Drain {
  import opened LogLines
  import opened Wrappers

  /** One sink registered with the capture: an instance's hold (0) or its i-th writer (i + 1). */
  type Token = (nat, nat)

  /** openSinks: the count, which zero-to-one epoch its idle channel belongs to, and whose sinks
      they are. The idle channel of an epoch is closed once the count has fallen to zero in it. */
  datatype Sinks = Sinks(n: nat, epoch: nat, tokens: set<Token>)

  predicate IdleClosed(s: Sinks, epoch: nat) {
    s.epoch > epoch || s.n == 0
  }

  datatype Hold = NotHeld | Held(sinks: nat) | Released
  datatype Writer = Absent | Ringed(ring: nat) | Open(sinks: nat, ring: nat) | Shut
  datatype Exit = Running | Draining(sinks: nat, epoch: nat) | Drained(all: bool) | Ended(all: bool)

  /** One instance: its spawn's hold, its fork, its pumps' writers, its exit path, and the lines
      that reached a ring already ended. */
  datatype Instance = Instance(hold: Hold, forked: bool, writers: seq<Writer>, exit: Exit, lost: seq<Chunk>) {
    predicate Opened(i: nat)
      requires i < |writers|
    {
      writers[i].Open? || writers[i].Shut?
    }

    /** Every sink it ever had is closed, and it will open no other. */
    predicate Finished() {
      hold.Released? && forall i :: 0 <= i < |writers| ==> writers[i].Shut?
    }
  }

  /** The capture's maps for this container: the current sinks and ring, and every one made. */
  datatype State = State(
    sinks: seq<Sinks>, rings: seq<bool>, curSinks: Option<nat>, curRing: Option<nat>, insts: seq<Instance>)

  datatype Step =
    | StartInstance(pumps: nat)      // Reset, then a new spawn begins
    | TakeHold(g: nat)
    | Fork(g: nat)
    | LookupRing(g: nat, i: nat)     // the first half of Writer
    | OpenWriter(g: nat, i: nat)     // its Hold
    | ReleaseHold(g: nat)
    | PumpLine(g: nat, i: nat, line: Chunk)
    | ShutWriter(g: nat, i: nat)
    | BeginDrain(g: nat)
    | DrainWakes(g: nat)
    | DrainTimesOut(g: nat)
    | EndRing(g: nat)

  /** Register a sink: the current count, made if there is none, goes up by one. */
  function Registered(s: State, t: Token): State
    requires s.curSinks.Some? ==> s.curSinks.value < |s.sinks|
  {
    if s.curSinks.None? then
      s.(sinks := s.sinks + [Sinks(1, 1, {t})], curSinks := Some(|s.sinks|))
    else
      var k := s.curSinks.value;
      var c := s.sinks[k];
      s.(sinks := s.sinks[k := Sinks(c.n + 1, if c.n == 0 then c.epoch + 1 else c.epoch, c.tokens + {t})])
  }

  /** Release a sink: its own count goes down, whatever the current one is. */
  function Unregistered(s: State, k: nat, t: Token): State
    requires k < |s.sinks| && s.sinks[k].n > 0
  {
    var c := s.sinks[k];
    s.(sinks := s.sinks[k := c.(n := c.n - 1, tokens := c.tokens - {t})])
  }

  function WithInst(s: State, g: nat, a: Instance): State
    requires g < |s.insts|
  {
    s.(insts := s.insts[g := a])
  }

  /** Close: the current ring ends. */
  function RingEnded(s: State): State {
    if s.curRing.Some? && s.curRing.value < |s.rings| then s.(rings := s.rings[s.curRing.value := true]) else s
  }

  predicate Fits(s: State) {
    (s.curSinks.Some? ==> s.curSinks.value < |s.sinks|) && (s.curRing.Some? ==> s.curRing.value < |s.rings|)
  }

  predicate Next(s: State, step: Step, s': State) {
    Fits(s) &&
    match step
    case StartInstance(pumps) =>
      pumps > 0 && (s.insts == [] || s.insts[|s.insts| - 1].exit.Ended?) &&
      s' == RingEnded(s).(curSinks := None, curRing := None,
              insts := s.insts + [Instance(NotHeld, false, seq(pumps, _ => Absent), Running, [])])
    case TakeHold(g) =>
      g < |s.insts| && s.insts[g].hold.NotHeld? &&
      var r := Registered(s, (g, 0));
      s' == WithInst(r, g, s.insts[g].(hold := Held(r.curSinks.value)))
    case Fork(g) =>
      g < |s.insts| && s.insts[g].hold.Held? && s' == WithInst(s, g, s.insts[g].(forked := true))
    case LookupRing(g, i) =>
      g < |s.insts| && i < |s.insts[g].writers| && s.insts[g].forked && s.insts[g].hold.Held? &&
      s.insts[g].writers[i].Absent? &&
      var r := if s.curRing.Some? then s else s.(rings := s.rings + [false], curRing := Some(|s.rings|));
      s' == WithInst(r, g, s.insts[g].(writers := s.insts[g].writers[i := Ringed(r.curRing.value)]))
    case OpenWriter(g, i) =>
      g < |s.insts| && i < |s.insts[g].writers| && s.insts[g].writers[i].Ringed? &&
      var r := Registered(s, (g, i + 1));
      s' == WithInst(r, g, s.insts[g].(
              writers := s.insts[g].writers[i := Open(r.curSinks.value, s.insts[g].writers[i].ring)]))
    case ReleaseHold(g) =>
      g < |s.insts| && s.insts[g].hold.Held? && s.insts[g].forked && s.insts[g].hold.sinks < |s.sinks| &&
      s.sinks[s.insts[g].hold.sinks].n > 0 &&
      (forall i :: 0 <= i < |s.insts[g].writers| ==> s.insts[g].Opened(i)) &&
      s' == WithInst(Unregistered(s, s.insts[g].hold.sinks, (g, 0)), g, s.insts[g].(hold := Released))
    case PumpLine(g, i, line) =>
      g < |s.insts| && i < |s.insts[g].writers| && s.insts[g].writers[i].Open? &&
      s.insts[g].writers[i].ring < |s.rings| &&
      s' == if s.rings[s.insts[g].writers[i].ring]
            then WithInst(s, g, s.insts[g].(lost := s.insts[g].lost + [line])) else s
    case ShutWriter(g, i) =>
      g < |s.insts| && i < |s.insts[g].writers| && s.insts[g].writers[i].Open? &&
      s.insts[g].writers[i].sinks < |s.sinks| &&
      s.sinks[s.insts[g].writers[i].sinks].n > 0 &&
      s' == WithInst(Unregistered(s, s.insts[g].writers[i].sinks, (g, i + 1)), g,
                     s.insts[g].(writers := s.insts[g].writers[i := Shut]))
    case BeginDrain(g) =>
      g == |s.insts| - 1 && s.insts[g].forked && s.insts[g].exit.Running? &&
      s' == WithInst(s, g, s.insts[g].(exit :=
              if s.curSinks.Some? && s.sinks[s.curSinks.value].n > 0
              then Draining(s.curSinks.value, s.sinks[s.curSinks.value].epoch) else Drained(true)))
    case DrainWakes(g) =>
      g < |s.insts| && s.insts[g].exit.Draining? && s.insts[g].exit.sinks < |s.sinks| &&
      IdleClosed(s.sinks[s.insts[g].exit.sinks], s.insts[g].exit.epoch) &&
      s' == WithInst(s, g, s.insts[g].(exit := Drained(true)))
    case DrainTimesOut(g) =>
      g < |s.insts| && s.insts[g].exit.Draining? && s' == WithInst(s, g, s.insts[g].(exit := Drained(false)))
    case EndRing(g) =>
      g < |s.insts| && s.insts[g].exit.Drained? &&
      s' == WithInst(RingEnded(s), g, s.insts[g].(exit := Ended(s.insts[g].exit.all)))
  }

  /** Token t is live on count k. */
  predicate HasToken(s: State, k: nat, t: Token) {
    k < |s.sinks| && t in s.sinks[k].tokens
  }

  /** The instance that a token names holds that sink. */
  predicate HeldBy(s: State, k: nat, t: Token) {
    t.0 < |s.insts| &&
    if t.1 == 0 then s.insts[t.0].hold == Held(k)
    else
      t.1 <= |s.insts[t.0].writers| && s.insts[t.0].writers[t.1 - 1].Open? &&
      s.insts[t.0].writers[t.1 - 1].sinks == k
  }

  /** Every count is the number of live sinks registered on it. */
  predicate CountsInv(s: State) {
    forall k :: 0 <= k < |s.sinks| ==> s.sinks[k].n == |s.sinks[k].tokens|
  }

  ghost predicate TokensInv(s: State) {
    forall k: nat, t: Token :: HasToken(s, k, t) ==> HeldBy(s, k, t)
  }

  predicate WriterInv(s: State, g: nat, i: nat)
    requires g < |s.insts| && i < |s.insts[g].writers|
  {
    match s.insts[g].writers[i]
    case Absent => true
    case Ringed(r) => r < |s.rings|
    case Open(k, r) => r < |s.rings| && HasToken(s, k, (g, i + 1))
    case Shut => true
  }

  /** Spawn order: nothing is opened before the fork, and the hold outlasts the opening. */
  predicate InstanceInv(s: State, g: nat)
    requires g < |s.insts|
  {
    var a := s.insts[g];
    (a.hold.Held? ==> HasToken(s, a.hold.sinks, (g, 0))) &&
    (forall i :: 0 <= i < |a.writers| ==> WriterInv(s, g, i)) &&
    (!a.forked ==> forall i :: 0 <= i < |a.writers| ==> a.writers[i].Absent?) &&
    (a.hold.NotHeld? ==> !a.forked) &&
    (a.hold.Released? ==> a.forked && forall i :: 0 <= i < |a.writers| ==> a.Opened(i))
  }

  /** The instance that has not ended is the last one; its sinks are on the current count, its
      pumps write to the current ring, and that ring is open. */
  predicate CurrentInv(s: State, g: nat)
    requires g < |s.insts|
  {
    var a := s.insts[g];
    !a.exit.Ended? ==>
      g == |s.insts| - 1 && a.lost == [] &&
      (s.curRing.Some? ==> s.curRing.value < |s.rings| && !s.rings[s.curRing.value]) &&
      (a.hold.Held? ==> s.curSinks == Some(a.hold.sinks)) &&
      forall i :: 0 <= i < |a.writers| ==> OnCurrent(s, a.writers[i])
  }

  predicate OnCurrent(s: State, w: Writer) {
    match w
    case Ringed(r) => s.curRing == Some(r)
    case Open(k, r) => s.curSinks == Some(k) && s.curRing == Some(r)
    case _ => true
  }

  /** A drain in progress watches the current count, in the epoch the instance is live in. */
  predicate ExitInv(s: State, g: nat)
    requires g < |s.insts|
  {
    var a := s.insts[g];
    match a.exit
    case Running => true
    case Draining(k, e) =>
      a.forked && s.curSinks == Some(k) && k < |s.sinks| && (!a.Finished() ==> s.sinks[k].epoch == e)
    case Drained(all) => a.forked && (all ==> a.Finished())
    case Ended(all) => a.forked && (all ==> a.Finished() && a.lost == [])
  }

  ghost predicate AllOf(s: State, g: nat)
    requires g < |s.insts|
  {
    InstanceInv(s, g) && CurrentInv(s, g) && ExitInv(s, g)
  }

  ghost predicate Inv(s: State) {
    Fits(s) && CountsInv(s) && TokensInv(s) &&
    forall g :: 0 <= g < |s.insts| ==> AllOf(s, g)
  }

  /** An instance that forked and is not finished has a live sink on the current count. */
  lemma UnfinishedIsLive(s: State, g: nat) returns (k: nat)
    requires Inv(s) && g < |s.insts| && s.insts[g].forked && !s.insts[g].Finished() && !s.insts[g].exit.Ended?
    ensures s.curSinks == Some(k) && k < |s.sinks| && s.sinks[k].n > 0
  {
    var a := s.insts[g];
    assert AllOf(s, g);
    if a.hold.Held? {
      k := a.hold.sinks;
      assert HasToken(s, k, (g, 0));
    } else {
      var i :| 0 <= i < |a.writers| && !a.writers[i].Shut?;
      assert a.Opened(i) && WriterInv(s, g, i) && OnCurrent(s, a.writers[i]);
      k := a.writers[i].sinks;
      assert HasToken(s, k, (g, i + 1));
    }
  }

  /** An instance untouched by a step keeps its invariants when no sink of its own went away, its
      ring and count are still the current ones, and its epoch did not move. */
  lemma Untouched(s: State, s': State, g: nat)
    requires g < |s.insts| <= |s'.insts| && s'.insts[g] == s.insts[g] && AllOf(s, g)
    requires |s.rings| <= |s'.rings| && |s.sinks| <= |s'.sinks|
    requires forall k: nat, j: nat :: HasToken(s, k, (g, j)) ==> HasToken(s', k, (g, j))
    requires s.insts[g].exit.Ended? ||
             (|s'.insts| == |s.insts| && (s.curSinks.Some? ==> s'.curSinks == s.curSinks) &&
              (s.curRing.Some? ==> s'.curRing == s.curRing) &&
              (s'.curRing.Some? ==> s'.curRing.value < |s'.rings| && !s'.rings[s'.curRing.value]) &&
              (s.curSinks.Some? && s.curSinks.value < |s.sinks| && !s.insts[g].Finished() &&
               s.insts[g].exit.Draining? ==>
                 s'.sinks[s.curSinks.value].epoch == s.sinks[s.curSinks.value].epoch))
    ensures AllOf(s', g)
  {
    var a := s.insts[g];
    forall i | 0 <= i < |a.writers|
      ensures WriterInv(s', g, i) && (!a.exit.Ended? ==> OnCurrent(s', a.writers[i]))
    {
      assert WriterInv(s, g, i) && (!a.exit.Ended? ==> OnCurrent(s, a.writers[i]));
    }
  }

  lemma RegisterCounts(s: State, t: Token)
    requires Fits(s) && CountsInv(s) && (s.curSinks.Some? ==> t !in s.sinks[s.curSinks.value].tokens)
    ensures CountsInv(Registered(s, t)) && Fits(Registered(s, t))
  {
    var r := Registered(s, t);
    forall k | 0 <= k < |r.sinks|
      ensures r.sinks[k].n == |r.sinks[k].tokens|
    {
      if k < |s.sinks| {
        assert s.sinks[k].n == |s.sinks[k].tokens|;
      } else {
        assert |{t}| == 1;
      }
    }
  }

  lemma UnregisterCounts(s: State, k: nat, t: Token)
    requires Fits(s) && CountsInv(s) && HasToken(s, k, t)
    ensures s.sinks[k].n > 0 && CountsInv(Unregistered(s, k, t)) && Fits(Unregistered(s, k, t))
  {
    assert s.sinks[k].n == |s.sinks[k].tokens|;
    assert |s.sinks[k].tokens - {t}| == |s.sinks[k].tokens| - 1;
    var r := Unregistered(s, k, t);
    forall j | 0 <= j < |r.sinks|
      ensures r.sinks[j].n == |r.sinks[j].tokens|
    {
      assert s.sinks[j].n == |s.sinks[j].tokens|;
    }
  }

  lemma OthersAfterRegister(s: State, t: Token, s': State, g: nat, h: nat)
    requires Inv(s) && g < |s.insts| && h < |s.insts| && h != g
    requires |s'.insts| == |s.insts| && s' == WithInst(Registered(s, t), g, s'.insts[g])
    ensures AllOf(s', h)
  {
    if !s.insts[h].exit.Ended? && !s.insts[h].Finished() && s.insts[h].exit.Draining? {
      assert AllOf(s, h);
      var k := UnfinishedIsLive(s, h);
    }
    assert AllOf(s, h);
    Untouched(s, s', h);
  }

  lemma TakeHoldKeepsInv(s: State, g: nat, s': State)
    requires Inv(s) && Next(s, TakeHold(g), s')
    ensures Inv(s')
  {
    assert AllOf(s, g);
    RegisterCounts(s, (g, 0)) by {
      assert s.curSinks.Some? ==> !HasToken(s, s.curSinks.value, (g, 0));
    }
    forall h | 0 <= h < |s'.insts|
      ensures AllOf(s', h)
    {
      if h != g {
        OthersAfterRegister(s, (g, 0), s', g, h);
      }
    }
    forall k: nat, t: Token | HasToken(s', k, t)
      ensures HeldBy(s', k, t)
    {
      if HasToken(s, k, t) {
        assert HeldBy(s, k, t);
      }
    }
  }

  lemma OpenWriterKeepsInv(s: State, g: nat, i: nat, s': State)
    requires Inv(s) && Next(s, OpenWriter(g, i), s')
    ensures Inv(s')
  {
    assert AllOf(s, g) && WriterInv(s, g, i);
    RegisterCounts(s, (g, i + 1)) by {
      assert s.curSinks.Some? ==> !HasToken(s, s.curSinks.value, (g, i + 1));
    }
    forall h | 0 <= h < |s'.insts|
      ensures AllOf(s', h)
    {
      if h != g {
        OthersAfterRegister(s, (g, i + 1), s', g, h);
      } else {
        OpenerAfterRegister(s, g, i, s');
      }
    }
    forall k: nat, t: Token | HasToken(s', k, t)
      ensures HeldBy(s', k, t)
    {
      if HasToken(s, k, t) {
        assert HeldBy(s, k, t);
      }
    }
  }

  lemma OpenerAfterRegister(s: State, g: nat, i: nat, s': State)
    requires Inv(s) && Next(s, OpenWriter(g, i), s')
    ensures AllOf(s', g)
  {
    var a, a' := s.insts[g], s'.insts[g];
    assert AllOf(s, g) && WriterInv(s, g, i);
    forall j | 0 <= j < |a'.writers|
      ensures WriterInv(s', g, j) && (!a.exit.Ended? ==> OnCurrent(s', a'.writers[j]))
    {
      assert WriterInv(s, g, j) && (!a.exit.Ended? ==> OnCurrent(s, a.writers[j]));
    }
    assert !a.Opened(i);
    if a.exit.Draining? {
      var k := UnfinishedIsLive(s, g);
    }
  }

  lemma OthersAfterUnregister(s: State, k: nat, t: Token, s': State, h: nat)
    requires Inv(s) && HasToken(s, k, t) && h < |s.insts| && h != t.0 && t.0 < |s.insts|
    requires s.sinks[k].n > 0 && |s'.insts| == |s.insts| && s' == WithInst(Unregistered(s, k, t), t.0, s'.insts[t.0])
    ensures AllOf(s', h)
  {
    assert AllOf(s, h);
    Untouched(s, s', h);
  }

  lemma TokensAfterUnregister(s: State, k: nat, t: Token, s': State)
    requires Inv(s) && HasToken(s, k, t) && t.0 < |s.insts| && |s'.insts| == |s.insts|
    requires s.sinks[k].n > 0 && s' == WithInst(Unregistered(s, k, t), t.0, s'.insts[t.0])
    requires forall j: nat, u: Token :: HasToken(s, j, u) && u != t ==> HeldBy(s', j, u)
    requires forall j: nat :: HasToken(s, j, t) ==> j == k
    ensures TokensInv(s')
  {
    forall j: nat, u: Token | HasToken(s', j, u)
      ensures HeldBy(s', j, u)
    {
      assert HasToken(s, j, u);
    }
  }

  lemma ReleaseHoldKeepsInv(s: State, g: nat, s': State)
    requires Inv(s) && Next(s, ReleaseHold(g), s')
    ensures Inv(s')
  {
    var a, t := s.insts[g], (g, 0);
    var k := a.hold.sinks;
    assert AllOf(s, g);
    UnregisterCounts(s, k, t);
    forall h | 0 <= h < |s'.insts|
      ensures AllOf(s', h)
    {
      if h != g {
        OthersAfterUnregister(s, k, t, s', h);
      } else {
        forall i | 0 <= i < |a.writers|
          ensures WriterInv(s', g, i) && (!a.exit.Ended? ==> OnCurrent(s', a.writers[i])) && s'.insts[g].Opened(i)
        {
          assert a.Opened(i) && WriterInv(s, g, i) && (!a.exit.Ended? ==> OnCurrent(s, a.writers[i]));
        }
      }
    }
    forall j: nat, u: Token | HasToken(s, j, u) && u != t
      ensures HeldBy(s', j, u)
    {
      assert HeldBy(s, j, u);
    }
    forall j: nat | HasToken(s, j, t)
      ensures j == k
    {
      assert HeldBy(s, j, t);
    }
    TokensAfterUnregister(s, k, t, s');
  }

  lemma ShutWriterKeepsInv(s: State, g: nat, i: nat, s': State)
    requires Inv(s) && Next(s, ShutWriter(g, i), s')
    ensures Inv(s')
  {
    var a, t := s.insts[g], (g, i + 1);
    var k := a.writers[i].sinks;
    assert AllOf(s, g) && WriterInv(s, g, i);
    UnregisterCounts(s, k, t);
    forall h | 0 <= h < |s'.insts|
      ensures AllOf(s', h)
    {
      if h != g {
        OthersAfterUnregister(s, k, t, s', h);
      } else {
        ShutterAfterUnregister(s, g, i, s');
      }
    }
    forall j: nat, u: Token | HasToken(s, j, u) && u != t
      ensures HeldBy(s', j, u)
    {
      assert HeldBy(s, j, u);
    }
    forall j: nat | HasToken(s, j, t)
      ensures j == k
    {
      assert HeldBy(s, j, t);
    }
    TokensAfterUnregister(s, k, t, s');
  }

  lemma ShutterAfterUnregister(s: State, g: nat, i: nat, s': State)
    requires Inv(s) && Next(s, ShutWriter(g, i), s')
    ensures AllOf(s', g)
  {
    var a, a' := s.insts[g], s'.insts[g];
    assert AllOf(s, g);
    forall j | 0 <= j < |a'.writers|
      ensures WriterInv(s', g, j) && (!a.exit.Ended? ==> OnCurrent(s', a'.writers[j]))
      ensures a.hold.Released? ==> a'.Opened(j)
    {
      assert WriterInv(s, g, j) && (!a.exit.Ended? ==> OnCurrent(s, a.writers[j]));
      assert a.hold.Released? ==> a.Opened(j);
    }
    assert !a.writers[i].Shut? && !a.Finished();
  }

  /** Steps that change only one instance's own progress. */
  lemma LocalKeepsInv(s: State, g: nat, s': State)
    requires Inv(s) && g < |s.insts| && |s'.insts| == |s.insts| && s' == WithInst(s, g, s'.insts[g]) && AllOf(s', g)
    requires s'.insts[g].hold == s.insts[g].hold && s'.insts[g].writers == s.insts[g].writers
    ensures Inv(s')
  {
    forall h | 0 <= h < |s'.insts|
      ensures AllOf(s', h)
    {
      if h != g {
        assert AllOf(s, h);
        Untouched(s, s', h);
      }
    }
    forall k: nat, t: Token | HasToken(s', k, t)
      ensures HeldBy(s', k, t)
    {
      assert HasToken(s, k, t) && HeldBy(s, k, t);
    }
  }

  lemma ForkKeepsInv(s: State, g: nat, s': State)
    requires Inv(s) && Next(s, Fork(g), s')
    ensures Inv(s')
  {
    assert AllOf(s, g);
    OwnAfterLocal(s, g, s');
    LocalKeepsInv(s, g, s');
  }

  /** The instance's sinks and rings are as they were; what else it promises is still to show. */
  lemma OwnAfterLocal(s: State, g: nat, s': State)
    requires Inv(s) && g < |s.insts| && |s'.insts| == |s.insts| && s' == WithInst(s, g, s'.insts[g])
    requires s'.insts[g].hold == s.insts[g].hold && s'.insts[g].writers == s.insts[g].writers
    requires s.insts[g].forked ==> s'.insts[g].forked
    requires s'.insts[g].forked && !s.insts[g].forked ==> s.insts[g].hold.Held?
    ensures InstanceInv(s', g)
    ensures !s.insts[g].exit.Ended? && s'.insts[g].lost == [] ==> CurrentInv(s', g)
    ensures s'.insts[g].exit == s.insts[g].exit && s'.insts[g].lost == s.insts[g].lost ==> ExitInv(s', g)
    ensures s'.insts[g].Finished() == s.insts[g].Finished()
  {
    assert AllOf(s, g);
    var a, a' := s.insts[g], s'.insts[g];
    forall i | 0 <= i < |a.writers|
      ensures WriterInv(s', g, i) && (!a.exit.Ended? ==> OnCurrent(s', a'.writers[i]))
      ensures a.hold.Released? ==> a'.Opened(i)
    {
      assert WriterInv(s, g, i) && (!a.exit.Ended? ==> OnCurrent(s, a.writers[i]));
      assert a.hold.Released? ==> a.Opened(i);
    }
  }

  lemma PumpLineKeepsInv(s: State, g: nat, i: nat, line: Chunk, s': State)
    requires Inv(s) && Next(s, PumpLine(g, i, line), s')
    ensures Inv(s')
  {
    var a := s.insts[g];
    assert AllOf(s, g);
    if s.rings[a.writers[i].ring] {
      // The ring has ended, so the instance's exit has: only a drain that timed out gets here.
      assert !a.Finished();
      OwnAfterLocal(s, g, s');
      LocalKeepsInv(s, g, s');
    }
  }

  lemma BeginDrainKeepsInv(s: State, g: nat, s': State)
    requires Inv(s) && Next(s, BeginDrain(g), s')
    ensures Inv(s')
  {
    assert AllOf(s, g);
    if !s.insts[g].Finished() {
      var k := UnfinishedIsLive(s, g);
    }
    OwnAfterLocal(s, g, s');
    LocalKeepsInv(s, g, s');
  }

  lemma DrainEndsKeepsInv(s: State, g: nat, s': State)
    requires Inv(s) && (Next(s, DrainWakes(g), s') || Next(s, DrainTimesOut(g), s'))
    ensures Inv(s')
  {
    assert AllOf(s, g);
    if !s.insts[g].Finished() {
      var k := UnfinishedIsLive(s, g);
    }
    OwnAfterLocal(s, g, s');
    LocalKeepsInv(s, g, s');
  }

  lemma LookupRingKeepsInv(s: State, g: nat, i: nat, s': State)
    requires Inv(s) && Next(s, LookupRing(g, i), s')
    ensures Inv(s')
  {
    var a, a' := s.insts[g], s'.insts[g];
    forall h | 0 <= h < |s'.insts|
      ensures AllOf(s', h)
    {
      assert AllOf(s, h);
      if h != g {
        Untouched(s, s', h);
      } else {
        forall j | 0 <= j < |a'.writers|
          ensures WriterInv(s', g, j) && (!a.exit.Ended? ==> OnCurrent(s', a'.writers[j]))
        {
          assert WriterInv(s, g, j) && (!a.exit.Ended? ==> OnCurrent(s, a.writers[j]));
        }
      }
    }
    forall k: nat, t: Token | HasToken(s', k, t)
      ensures HeldBy(s', k, t)
    {
      assert HasToken(s, k, t) && HeldBy(s, k, t);
    }
  }

  /** Ending the current ring, with every other instance long ended. */
  lemma OthersAfterEnd(s: State, s': State, h: nat)
    requires Inv(s) && h < |s.insts| <= |s'.insts| && s'.insts[h] == s.insts[h] && s.insts[h].exit.Ended?
    requires s'.sinks == s.sinks && |s'.rings| == |s.rings|
    ensures AllOf(s', h)
  {
    assert AllOf(s, h);
    Untouched(s, s', h);
  }

  lemma EndRingKeepsInv(s: State, g: nat, s': State)
    requires Inv(s) && Next(s, EndRing(g), s')
    ensures Inv(s')
  {
    assert AllOf(s, g);
    var a := s.insts[g];
    forall h | 0 <= h < |s'.insts|
      ensures AllOf(s', h)
    {
      if h != g {
        assert AllOf(s, h);
        OthersAfterEnd(s, s', h);
      } else {
        forall i | 0 <= i < |a.writers|
          ensures WriterInv(s', g, i) && (a.hold.Released? ==> s'.insts[g].Opened(i))
        {
          assert WriterInv(s, g, i) && (a.hold.Released? ==> a.Opened(i));
        }
      }
    }
    forall k: nat, t: Token | HasToken(s', k, t)
      ensures HeldBy(s', k, t)
    {
      assert HasToken(s, k, t) && HeldBy(s, k, t);
    }
  }

  lemma StartInstanceKeepsInv(s: State, pumps: nat, s': State)
    requires Inv(s) && Next(s, StartInstance(pumps), s')
    ensures Inv(s')
  {
    var n := |s.insts|;
    forall h | 0 <= h < |s'.insts|
      ensures AllOf(s', h)
    {
      if h < n {
        assert AllOf(s, h) && AllOf(s, n - 1);
        OthersAfterEnd(s, s', h);
      }
    }
    forall k: nat, t: Token | HasToken(s', k, t)
      ensures HeldBy(s', k, t)
    {
      assert HasToken(s, k, t) && HeldBy(s, k, t);
    }
  }

  lemma StepKeepsInv(s: State, step: Step, s': State)
    requires Inv(s) && Next(s, step, s')
    ensures Inv(s')
  {
    match step
    case StartInstance(pumps) => StartInstanceKeepsInv(s, pumps, s');
    case TakeHold(g) => TakeHoldKeepsInv(s, g, s');
    case Fork(g) => ForkKeepsInv(s, g, s');
    case LookupRing(g, i) => LookupRingKeepsInv(s, g, i, s');
    case OpenWriter(g, i) => OpenWriterKeepsInv(s, g, i, s');
    case ReleaseHold(g) => ReleaseHoldKeepsInv(s, g, s');
    case PumpLine(g, i, line) => PumpLineKeepsInv(s, g, i, line, s');
    case ShutWriter(g, i) => ShutWriterKeepsInv(s, g, i, s');
    case BeginDrain(g) => BeginDrainKeepsInv(s, g, s');
    case DrainWakes(g) => DrainEndsKeepsInv(s, g, s');
    case DrainTimesOut(g) => DrainEndsKeepsInv(s, g, s');
    case EndRing(g) => EndRingKeepsInv(s, g, s');
  }

  const START := State([], [], None, None, [])

  predicate IsRun(trace: seq<State>, steps: seq<Step>) {
    |trace| == |steps| + 1 && trace[0] == START &&
    forall i :: 0 <= i < |steps| ==> Next(trace[i], steps[i], trace[i + 1])
  }

  lemma {:induction false} RunKeepsInv(trace: seq<State>, steps: seq<Step>, n: nat)
    requires IsRun(trace, steps) && n < |trace|
    ensures Inv(trace[n])
  {
    if n > 0 {
      RunKeepsInv(trace, steps, n - 1);
      StepKeepsInv(trace[n - 1], steps[n - 1], trace[n]);
    }
  }

  /** In every run: once an instance's drain has reported that everything drained, all its pumps
      are shut, and no line of it ever reached a ring that had ended, before or after. */
  lemma DrainedLosesNothing(trace: seq<State>, steps: seq<Step>, n: nat, g: nat)
    requires IsRun(trace, steps) && n < |trace| && g < |trace[n].insts|
    requires var e := trace[n].insts[g].exit; (e.Drained? || e.Ended?) && e.all
    ensures trace[n].insts[g].Finished() && trace[n].insts[g].lost == []
  {
    RunKeepsInv(trace, steps, n);
    assert AllOf(trace[n], g);
  }

  /** Until its ring is ended no line of an instance is lost, however its exit goes. */
  lemma NothingLostBeforeEnd(trace: seq<State>, steps: seq<Step>, n: nat, g: nat)
    requires IsRun(trace, steps) && n < |trace| && g < |trace[n].insts| && !trace[n].insts[g].exit.Ended?
    ensures trace[n].insts[g].lost == []
  {
    RunKeepsInv(trace, steps, n);
    assert AllOf(trace[n], g);
  }

  /** The count never touches zero between the hold and the last writer's close: a drain in
      progress is not woken while the instance has a sink to open or to close. */
  lemma NoEarlyWake(trace: seq<State>, steps: seq<Step>, n: nat, g: nat)
    requires IsRun(trace, steps) && n < |trace| && g < |trace[n].insts|
    requires trace[n].insts[g].exit.Draining? && !trace[n].insts[g].Finished()
    ensures
      var x := trace[n].insts[g].exit;
      x.sinks < |trace[n].sinks| && !IdleClosed(trace[n].sinks[x.sinks], x.epoch)
  {
    RunKeepsInv(trace, steps, n);
    assert AllOf(trace[n], g);
    var k := UnfinishedIsLive(trace[n], g);
  }
}
