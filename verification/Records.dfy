/** Artifact records under concurrent edits: operator pulls, pod pulls, Forget and the release of
    pod-only records, interleaved at every index operation. */
module Records {

  /** A stored record: one that does not decode, or a decoded one. */
  datatype Stored = Corrupt(raw: nat) | Record(manifest: string, layers: set<string>, podOnly: bool) {
    /** What an operator asked for, and stays until they forget it. */
    predicate Pinned() { Record? && !podOnly }
  }

  datatype Lookup = NoRecord | Unreadable | Found(rec: Stored)

  function Read(index: map<string, Stored>, key: string): Lookup {
    if key !in index then NoRecord else if index[key].Corrupt? then Unreadable else Found(index[key])
  }

  /** What a pull writes over what it read: an unchanged manifest keeps the layers recorded
      before, and only a key nobody pinned can be pod-only. */
  function Merged(was: Lookup, manifest: string, layers: set<string>, podOnly: bool): Stored {
    Record(manifest,
           layers + (if was.Found? && was.rec.Record? && was.rec.manifest == manifest then was.rec.layers else {}),
           podOnly && !was.Unreadable? && !(was.Found? && was.rec.Pinned()))
  }

  /** Which records a removal accepts: any, or one still pod-only and of the manifest listed. */
  datatype Guard = Any | PodOnlyOf(manifest: string)

  predicate Accepts(g: Guard, r: Stored) {
    match g
    case Any => true
    case PodOnlyOf(m) => r.Record? && r.podOnly && r.manifest == m
  }

  /** Where a pull's record write stands; from Locked to Wrote it holds its key's stripe. */
  datatype PullAt = NotYet | Locked | Looked(was: Lookup) | Wrote | Finished

  datatype ForgetAt = ToRead | ToRemove(raw: Stored) | Gone

  datatype Actor =
    | Puller(key: string, manifest: string, layers: set<string>, podOnly: bool, pc: PullAt)
    | Forgetter(key: string, guard: Guard, at: ForgetAt)

  predicate InSection(a: Actor) {
    a.Puller? && (a.pc.Locked? || a.pc.Looked? || a.pc.Wrote?)
  }

  datatype State = State(index: map<string, Stored>, actors: seq<Actor>)

  datatype Step = Join(a: Actor) | Move(i: nat)

  /** The stripe a key's record lock lives on; distinct keys may share one. */
  type Stripes = string -> nat

  predicate StripeFree(stripe: Stripes, s: State, key: string) {
    forall j :: 0 <= j < |s.actors| && InSection(s.actors[j]) ==> stripe(s.actors[j].key) != stripe(key)
  }

  /** forget removes the record it read while it is still that one: by manifest when it names
      one, by its bytes when it does not decode. */
  predicate StillIt(raw: Stored, cur: Stored) {
    if raw.Corrupt? then cur == raw else cur.Record? && cur.manifest == raw.manifest
  }

  predicate Next(stripe: Stripes, s: State, step: Step, s': State) {
    match step
    case Join(a) =>
      (a.Puller? ==> a.pc.NotYet?) && (a.Forgetter? ==> a.at.ToRead?) && s' == s.(actors := s.actors + [a])
    case Move(i) =>
      i < |s.actors| &&
      match s.actors[i]
      case Puller(key, manifest, layers, podOnly, pc) =>
        (match pc
         case NotYet => StripeFree(stripe, s, key) && s' == s.(actors := s.actors[i := s.actors[i].(pc := Locked)])
         case Locked => s' == s.(actors := s.actors[i := s.actors[i].(pc := Looked(Read(s.index, key)))])
         case Looked(was) =>
           s' == State(s.index[key := Merged(was, manifest, layers, podOnly)], s.actors[i := s.actors[i].(pc := Wrote)])
         case Wrote => s' == s.(actors := s.actors[i := s.actors[i].(pc := Finished)])
         case Finished => false)
      case Forgetter(key, guard, at) =>
        (match at
         case ToRead =>
           s' == s.(actors := s.actors[
                      i := s.actors[i].(at := if key in s.index then ToRemove(s.index[key]) else Gone)])
         case ToRemove(raw) =>
           s' == State(if key in s.index && StillIt(raw, s.index[key]) && Accepts(guard, s.index[key])
                       then s.index - {key} else s.index,
                       s.actors[i := s.actors[i].(at := Gone)])
         case Gone => false)
  }

  /** While a pull is between its read and its write, the record is the one it read, or has been
      removed since. */
  predicate ReadHolds(s: State, i: nat)
    requires i < |s.actors|
  {
    s.actors[i].Puller? && s.actors[i].pc.Looked? ==>
      var key := s.actors[i].key;
      key !in s.index || Read(s.index, key) == s.actors[i].pc.was
  }

  predicate Inv(stripe: Stripes, s: State) {
    (forall i :: 0 <= i < |s.actors| ==> ReadHolds(s, i)) &&
    (forall i, j :: 0 <= i < j < |s.actors| && InSection(s.actors[i]) && InSection(s.actors[j]) ==>
       stripe(s.actors[i].key) != stripe(s.actors[j].key))
  }

  lemma StepKeepsInv(stripe: Stripes, s: State, step: Step, s': State)
    requires Inv(stripe, s) && Next(stripe, s, step, s')
    ensures Inv(stripe, s')
  {
    forall j | 0 <= j < |s'.actors|
      ensures ReadHolds(s', j)
    {
      if j < |s.actors| {
        assert ReadHolds(s, j);
      }
    }
  }

  predicate IsRun(stripe: Stripes, trace: seq<State>, steps: seq<Step>) {
    |trace| == |steps| + 1 && trace[0].actors == [] &&
    forall i :: 0 <= i < |steps| ==> Next(stripe, trace[i], steps[i], trace[i + 1])
  }

  lemma {:induction false} RunKeepsInv(stripe: Stripes, trace: seq<State>, steps: seq<Step>, n: nat)
    requires IsRun(stripe, trace, steps) && n < |trace|
    ensures Inv(stripe, trace[n])
  {
    if n > 0 {
      RunKeepsInv(stripe, trace, steps, n - 1);
      StepKeepsInv(stripe, trace[n - 1], steps[n - 1], trace[n]);
    }
  }

  /** In every run, a pinned record stays, pinned, through every step but one: a Forget of its own
      key, which asks for no guard. */
  lemma PinnedStaysPinned(stripe: Stripes, trace: seq<State>, steps: seq<Step>, n: nat, key: string)
    requires IsRun(stripe, trace, steps) && n < |steps|
    requires key in trace[n].index && trace[n].index[key].Pinned()
    ensures key in trace[n + 1].index ==> trace[n + 1].index[key].Pinned()
    ensures key !in trace[n + 1].index ==>
              steps[n].Move? && steps[n].i < |trace[n].actors| &&
              var a := trace[n].actors[steps[n].i]; a.Forgetter? && a.key == key && a.guard == Any
  {
    RunKeepsInv(stripe, trace, steps, n);
    var s, step := trace[n], steps[n];
    assert Next(stripe, s, step, trace[n + 1]);
    if step.Move? {
      assert ReadHolds(s, step.i);
    }
  }

  /** Every write of a pull whose manifest did not change keeps each layer the record named. */
  lemma WritesWiden(stripe: Stripes, trace: seq<State>, steps: seq<Step>, n: nat, key: string)
    requires IsRun(stripe, trace, steps) && n < |steps|
    requires key in trace[n].index && trace[n].index[key].Record? && key in trace[n + 1].index
    ensures trace[n + 1].index[key].Record?
    ensures trace[n + 1].index[key].manifest == trace[n].index[key].manifest ==>
              trace[n].index[key].layers <= trace[n + 1].index[key].layers
  {
    RunKeepsInv(stripe, trace, steps, n);
    var s, step := trace[n], steps[n];
    assert Next(stripe, s, step, trace[n + 1]);
    if step.Move? {
      assert ReadHolds(s, step.i);
    }
  }

  /** A guarded removal takes only a record that is pod-only at that moment, of the manifest it
      was listed with. */
  lemma ReleaseTakesPodOnly(stripe: Stripes, trace: seq<State>, steps: seq<Step>, n: nat, key: string)
    requires IsRun(stripe, trace, steps) && n < |steps| && steps[n].Move? && steps[n].i < |trace[n].actors|
    requires var a := trace[n].actors[steps[n].i]; a.Forgetter? && a.guard.PodOnlyOf?
    requires key in trace[n].index && key !in trace[n + 1].index
    ensures
      var r, a := trace[n].index[key], trace[n].actors[steps[n].i];
      a.key == key && r.Record? && r.podOnly && r.manifest == a.guard.manifest
  {
    assert Next(stripe, trace[n], steps[n], trace[n + 1]);
  }

  /** Step r of a run is the one at which actor i read its record. */
  predicate ReadsAt(trace: seq<State>, steps: seq<Step>, r: nat, i: nat) {
    r < |steps| && |trace| == |steps| + 1 && steps[r] == Move(i) && i < |trace[r].actors| &&
    var a := trace[r].actors[i];
    if a.Puller? then a.pc.Locked? else a.at.ToRead?
  }

  predicate SameActor(a: Actor, b: Actor) {
    a.key == b.key && a.Puller? == b.Puller? &&
    (a.Puller? ==> a.manifest == b.manifest && a.layers == b.layers && a.podOnly == b.podOnly) &&
    (a.Forgetter? ==> a.guard == b.guard)
  }

  /** What an actor has read is what the index held at an earlier step of its own. */
  lemma {:induction false} ReadWasMade(stripe: Stripes, trace: seq<State>, steps: seq<Step>, n: nat, i: nat)
    returns (r: nat)
    requires IsRun(stripe, trace, steps) && n < |trace| && i < |trace[n].actors|
    requires var a := trace[n].actors[i]; if a.Puller? then a.pc.Looked? else a.at.ToRemove?
    ensures r < n && ReadsAt(trace, steps, r, i) && SameActor(trace[r].actors[i], trace[n].actors[i])
    ensures
      var a, w := trace[n].actors[i], trace[r].index;
      if a.Puller? then a.pc.was == Read(w, a.key) else a.key in w && a.at.raw == w[a.key]
  {
    assert Next(stripe, trace[n - 1], steps[n - 1], trace[n]);
    if steps[n - 1] == Move(i) {
      return n - 1;
    }
    r := ReadWasMade(stripe, trace, steps, n - 1, i);
  }

  /** A pull's write, in every run: the key's record is then of the pull's manifest, with exactly the
      layers it pulled and, for the same manifest, those of the record it read; it is pod-only
      exactly when the pull asked for that and what it read was nothing or pod-only; and no other
      key is touched. */
  lemma PullRecordsItsLayers(stripe: Stripes, trace: seq<State>, steps: seq<Step>, n: nat, i: nat) returns (r: nat)
    requires IsRun(stripe, trace, steps) && n < |steps| && steps[n] == Move(i) && i < |trace[n].actors|
    requires trace[n].actors[i].Puller? && trace[n].actors[i].pc.Looked?
    ensures r < n && ReadsAt(trace, steps, r, i)
    ensures trace[n + 1].actors == trace[n].actors[i := trace[n].actors[i].(pc := Wrote)]
    ensures
      var a, w, after := trace[n].actors[i], trace[r].index, trace[n + 1].index;
      a.key in after && after[a.key].Record? && after[a.key].manifest == a.manifest &&
      (forall l :: l in after[a.key].layers <==>
         l in a.layers ||
         (a.key in w && w[a.key].Record? && w[a.key].manifest == a.manifest && l in w[a.key].layers)) &&
      (after[a.key].podOnly <==> a.podOnly && (a.key !in w || (w[a.key].Record? && w[a.key].podOnly))) &&
      after - {a.key} == trace[n].index - {a.key}
  {
    r := ReadWasMade(stripe, trace, steps, n, i);
    assert Next(stripe, trace[n], steps[n], trace[n + 1]);
  }

  /** A forget's removal, in every run: the record goes exactly when it is still the one read (the
      same manifest, or the same bytes when it does not decode) and, for a release, still pod-only
      of the listed manifest; and no other key is touched. */
  lemma ForgetRemovesExactly(stripe: Stripes, trace: seq<State>, steps: seq<Step>, n: nat, i: nat) returns (r: nat)
    requires IsRun(stripe, trace, steps) && n < |steps| && steps[n] == Move(i) && i < |trace[n].actors|
    requires trace[n].actors[i].Forgetter? && trace[n].actors[i].at.ToRemove?
    ensures r < n && ReadsAt(trace, steps, r, i)
    ensures
      var a, w, now, after := trace[n].actors[i], trace[r].index, trace[n].index, trace[n + 1].index;
      a.key in w && after - {a.key} == now - {a.key} &&
      (a.key !in now ==> a.key !in after) &&
      (a.key in now ==>
        (a.key in after ==> after[a.key] == now[a.key]) &&
        (a.key !in after <==>
          (if w[a.key].Corrupt? then now[a.key] == w[a.key]
           else now[a.key].Record? && now[a.key].manifest == w[a.key].manifest) &&
          (a.guard.Any? ||
           (now[a.key].Record? && now[a.key].podOnly && now[a.key].manifest == a.guard.manifest))))
  {
    r := ReadWasMade(stripe, trace, steps, n, i);
    assert Next(stripe, trace[n], steps[n], trace[n + 1]);
  }

  /** The index changes at no other step. */
  lemma OnlyWritesAndRemovals(stripe: Stripes, trace: seq<State>, steps: seq<Step>, n: nat)
    requires IsRun(stripe, trace, steps) && n < |steps| && trace[n + 1].index != trace[n].index
    ensures
      steps[n].Move? && steps[n].i < |trace[n].actors| &&
      var a := trace[n].actors[steps[n].i];
      if a.Puller? then a.pc.Looked? else a.at.ToRemove?
  {
    assert Next(stripe, trace[n], steps[n], trace[n + 1]);
  }
}
