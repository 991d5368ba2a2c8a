/** The reservation is not a byte too large: a schedule of the pull fills it. */
module PullReached {
  import opened Space
  import opened Pull

  // The top sum is a selection's

  /** A selection of the sorted list is one of the list itself. */
  lemma {:induction false} UnsortedMask(xs: seq<int>, m: seq<bool>) returns (mask: seq<bool>)
    requires |m| == |xs|
    ensures |mask| == |xs| && MaskSum(xs, mask) == MaskSum(Sorted(xs), m) && MaskCount(mask) == MaskCount(m)
  {
    if xs == [] {
      return [];
    }
    var n := |xs| - 1;
    var p := Place(Sorted(xs[..n]), xs[n]);
    var rest := Without(m, p);
    var mask0 := UnsortedMask(xs[..n], rest);
    MaskInsert(Sorted(xs[..n]), rest, p, xs[n], m[p]);
    mask := mask0 + [m[p]];
    assert mask[..n] == mask0;
  }

  function Without(m: seq<bool>, p: nat): (rest: seq<bool>)
    requires p < |m|
    ensures |rest| == |m| - 1 && m == rest[..p] + [m[p]] + rest[p..]
  {
    m[..p] + m[p + 1..]
  }

  function FirstOnes(n: nat, k: nat): (m: seq<bool>)
    ensures |m| == n
  {
    seq(n, i => i < k)
  }

  lemma {:induction false} FirstOnesSum(xs: seq<int>, k: nat)
    ensures MaskSum(xs, FirstOnes(|xs|, k)) == Sum(if |xs| <= k then xs else xs[..k])
    ensures MaskCount(FirstOnes(|xs|, k)) == if |xs| <= k then |xs| else k
  {
    if xs != [] {
      var n := |xs| - 1;
      FirstOnesSum(xs[..n], k);
      assert FirstOnes(|xs|, k)[..n] == FirstOnes(n, k);
      if n >= k {
        assert n == k ==> xs[..n] == xs[..k];
        assert xs[..n][..k] == xs[..k];
      }
    }
  }

  /** The top-k sum is the sum of some selection of at most k elements: with dominance, it is the
      greatest such sum. */
  lemma TopSumAttained(xs: seq<int>, k: nat) returns (mask: seq<bool>)
    ensures |mask| == |xs| && MaskCount(mask) <= k && MaskSum(xs, mask) == TopSum(xs, k)
  {
    var m := FirstOnes(|xs|, k);
    FirstOnesSum(Sorted(xs), k);
    mask := UnsortedMask(xs, m);
  }

  // A schedule

  ghost predicate Reaches(bs: seq<Blob>, k: nat, s: State) {
    exists trace: seq<State>, steps: seq<Step> :: IsRun(bs, k, trace, steps) && trace[|steps|] == s
  }

  lemma Onward(bs: seq<Blob>, k: nat, s: State, step: Step, s': State)
    requires Reaches(bs, k, s) && Next(bs, k, s, step, s')
    ensures Reaches(bs, k, s')
  {
    var trace, steps :| IsRun(bs, k, trace, steps) && trace[|steps|] == s;
    var trace', steps' := trace + [s'], steps + [step];
    forall i | 0 <= i < |steps'|
      ensures Next(bs, k, trace'[i], steps'[i], trace'[i + 1])
    {
      if i < |steps| {
        assert Next(bs, k, trace[i], steps[i], trace[i + 1]);
      }
    }
    assert IsRun(bs, k, trace', steps') && trace'[|steps'|] == s';
  }

  /** One blob moves on and the others stay. */
  lemma MoveOne(bs: seq<Blob>, k: nat, s: State, step: Step, f: Fetch) returns (s': State)
    requires Reaches(bs, k, s) && step.i < |bs| == |s.fetches| && Moves(bs[step.i], s.fetches[step.i], step, f)
    requires step.Acquire? ==> MaskCount(Holders(s)) < k
    ensures s' == State(s.fetches[step.i := f]) && Reaches(bs, k, s')
  {
    s' := State(s.fetches[step.i := f]);
    Onward(bs, k, s, step, s');
  }

  predicate Usual(b: Blob) { b.partial <= b.size }

  function Fresh(b: Blob): Fetch { Fetch(Waiting, b.partial, 0, false) }

  /** The whole download is on the volume, and the whole copy beside it. */
  function Full(b: Blob): Fetch
    requires Usual(b)
  {
    Fetch(Committing, b.size, b.size, false)
  }

  const STORED := Fetch(Done, 0, 0, true)

  /** A waiting blob with a free place downloads and copies everything. */
  lemma Fill(bs: seq<Blob>, k: nat, s: State, i: nat) returns (s': State)
    requires Reaches(bs, k, s) && i < |bs| == |s.fetches| && Usual(bs[i]) && s.fetches[i] == Fresh(bs[i])
    requires MaskCount(Holders(s)) < k
    ensures s' == State(s.fetches[i := Full(bs[i])]) && Reaches(bs, k, s')
  {
    var b := bs[i];
    s' := MoveOne(bs, k, s, Acquire(i), Fresh(b).(phase := Opening));
    if b.partial < b.size {
      s' := MoveOne(bs, k, s', Open(i), Fetch(Transferring, b.partial, 0, false));
      s' := MoveOne(bs, k, s', Receive(i, b.size - b.partial), Fetch(Transferring, b.size, 0, false));
      s' := MoveOne(bs, k, s', EndTransfer(i), Fetch(Committing, b.size, 0, false));
    } else {
      s' := MoveOne(bs, k, s', Open(i), Fetch(Committing, b.size, 0, false));
    }
    s' := MoveOne(bs, k, s', CommitWrite(i, b.size), Full(b));
    assert s'.fetches == s.fetches[i := Full(b)];
  }

  /** And then commits, drops its partial and leaves. */
  lemma Finish(bs: seq<Blob>, k: nat, s: State, i: nat) returns (s': State)
    requires Reaches(bs, k, s) && i < |bs| == |s.fetches| && Usual(bs[i]) && s.fetches[i] == Full(bs[i])
    ensures s' == State(s.fetches[i := STORED]) && Reaches(bs, k, s')
  {
    var b := bs[i];
    s' := MoveOne(bs, k, s, CommitDone(i), Fetch(Committed, b.size, 0, true));
    s' := MoveOne(bs, k, s', RemovePartial(i), Fetch(Leaving, 0, 0, true));
    s' := MoveOne(bs, k, s', Leave(i), STORED);
    assert s'.fetches == s.fetches[i := STORED];
  }

  /** The first n blobs outside the selection stored, the others waiting. */
  function Storing(bs: seq<Blob>, mask: seq<bool>, n: nat): State
    requires |mask| == |bs|
  {
    State(seq(|bs|, i requires 0 <= i < |bs| => if i < n && !mask[i] then STORED else Fresh(bs[i])))
  }

  /** Every blob outside the selection stored, the selected ones among the first n full. */
  function Filling(bs: seq<Blob>, mask: seq<bool>, n: nat): State
    requires |mask| == |bs| && forall i :: 0 <= i < |bs| ==> Usual(bs[i])
  {
    State(seq(|bs|, i requires 0 <= i < |bs| =>
      if !mask[i] then STORED else if i < n then Full(bs[i]) else Fresh(bs[i])))
  }

  lemma {:induction false} StoreUpTo(bs: seq<Blob>, k: nat, mask: seq<bool>, n: nat)
    requires |mask| == |bs| && n <= |bs| && k > 0 && forall i :: 0 <= i < |bs| ==> Usual(bs[i])
    ensures Reaches(bs, k, Storing(bs, mask, n))
  {
    if n == 0 {
      var s := Storing(bs, mask, 0);
      var none: seq<Step> := [];
      assert IsRun(bs, k, [s], none) && [s][|none|] == s;
    } else {
      StoreUpTo(bs, k, mask, n - 1);
      var s := Storing(bs, mask, n - 1);
      if !mask[n - 1] {
        NobodyHolds(Holders(s));
        var s1 := Fill(bs, k, s, n - 1);
        var s2 := Finish(bs, k, s1, n - 1);
        assert s2.fetches == Storing(bs, mask, n).fetches;
      } else {
        assert s.fetches == Storing(bs, mask, n).fetches;
      }
    }
  }

  lemma {:induction false} CountPrefix(mask: seq<bool>, n: nat)
    requires n < |mask|
    ensures MaskCount(mask[..n]) <= MaskCount(mask) && (mask[n] ==> MaskCount(mask[..n]) < MaskCount(mask))
    decreases |mask|
  {
    var m := |mask| - 1;
    if n < m {
      CountPrefix(mask[..m], n);
      assert mask[..m][..n] == mask[..n];
    }
  }

  lemma FillingHolders(bs: seq<Blob>, mask: seq<bool>, n: nat)
    requires |mask| == |bs| && n <= |bs| && forall i :: 0 <= i < |bs| ==> Usual(bs[i])
    ensures MaskCount(Holders(Filling(bs, mask, n))) == MaskCount(mask[..n])
  {
    var h, none := Holders(Filling(bs, mask, n)), seq(|bs| - n, i => false);
    assert h == mask[..n] + none;
    NobodyHolds(none);
    MaskConcat(Sizes(bs)[..n], Sizes(bs)[n..], mask[..n], none);
  }

  lemma {:induction false} FillUpTo(bs: seq<Blob>, k: nat, mask: seq<bool>, n: nat)
    requires |mask| == |bs| && n <= |bs| && k > 0 && forall i :: 0 <= i < |bs| ==> Usual(bs[i])
    requires MaskCount(mask) <= k
    ensures Reaches(bs, k, Filling(bs, mask, n))
  {
    if n == 0 {
      StoreUpTo(bs, k, mask, |bs|);
      assert Storing(bs, mask, |bs|).fetches == Filling(bs, mask, 0).fetches;
    } else {
      FillUpTo(bs, k, mask, n - 1);
      var s := Filling(bs, mask, n - 1);
      if mask[n - 1] {
        FillingHolders(bs, mask, n - 1);
        CountPrefix(mask, n - 1);
        var s' := Fill(bs, k, s, n - 1);
        assert s'.fetches == Filling(bs, mask, n).fetches;
      } else {
        assert s.fetches == Filling(bs, mask, n).fetches;
      }
    }
  }

  lemma {:induction false} SumsExactly(added: seq<int>, rests: seq<int>, sizes: seq<int>, mask: seq<bool>)
    requires |added| == |rests| == |sizes| == |mask|
    requires forall i :: 0 <= i < |added| ==> added[i] == rests[i] + if mask[i] then sizes[i] else 0
    ensures Sum(added) == Sum(rests) + MaskSum(sizes, mask)
  {
    if added != [] {
      var n := |added| - 1;
      SumsExactly(added[..n], rests[..n], sizes[..n], mask[..n]);
    }
  }

  /** Whatever is missing and however many may transfer at once, there is a schedule that has added
      to the volume exactly what spaceNeeded said, when no partial is longer than its blob: the
      reservation is the least that is always enough. */
  lemma ReservationIsTight(bs: seq<Blob>, k: nat) returns (trace: seq<State>, steps: seq<Step>)
    requires k > 0 && forall i :: 0 <= i < |bs| ==> Usual(bs[i])
    ensures IsRun(bs, k, trace, steps)
    ensures |trace[|steps|].fetches| == |bs| && Sum(AllAdded(bs, trace[|steps|])) == Need(bs, k)
  {
    var mask := TopSumAttained(Sizes(bs), k);
    FillUpTo(bs, k, mask, |bs|);
    var s := Filling(bs, mask, |bs|);
    trace, steps :| IsRun(bs, k, trace, steps) && trace[|steps|] == s;
    forall i | 0 <= i < |bs|
      ensures AllAdded(bs, s)[i] == Rests(bs)[i] + if mask[i] then Sizes(bs)[i] else 0
    {
    }
    SumsExactly(AllAdded(bs, s), Rests(bs), Sizes(bs), mask);
  }
}
