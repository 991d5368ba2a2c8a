/** The stamps a ring stores: exactly when they strictly increase over a whole history, and that a
    reader may then resume by time as it would by number. */
module LogStamps {
  import opened LogRing

  /** The history a ring has after these appends, in order. */
  function AppendAll(es: seq<Entry>): (h: seq<Entry>)
    ensures |h| == |es|
  {
    if es == [] then []
    else
      var h := AppendAll(es[..|es| - 1]);
      h + [Stored(h, es[|es| - 1])]
  }

  /** A ring's history is exactly that of its appends. */
  lemma {:induction false} RecordsAreAppends(history: seq<Entry>, appended: seq<Entry>)
    requires Records(history, appended)
    ensures history == AppendAll(appended)
  {
    if history != [] {
      var n := |history| - 1;
      RecordsLooksBack(history, appended, n);
      RecordsAreAppends(history[..n], appended[..n]);
      assert RecordsAt(history, appended, n);
      assert history == history[..n] + [history[n]];
    }
  }

  lemma RecordsLooksBack(history: seq<Entry>, appended: seq<Entry>, n: nat)
    requires Records(history, appended) && n <= |history|
    ensures Records(history[..n], appended[..n])
  {
    var history', appended' := history[..n], appended[..n];
    forall i: nat
      ensures RecordsAt(history', appended', i)
    {
      assert RecordsAt(history, appended, i);
      if i < n {
        assert history'[..i] == history[..i];
      }
    }
  }

  /** Stamps strictly increase along a history. */
  predicate Increasing(history: seq<Entry>) {
    forall i, j :: 0 <= i < j < |history| ==> history[i].at < history[j].at
  }

  /** Exactly when a stamp fails to move past the previous one: the previous one is the unset
      time and the new one is not after it. */
  lemma StampMovesOn(lastAt: int, at: int)
    ensures Stamp(lastAt, at) > lastAt <==> !(lastAt == ZERO_TIME && at <= ZERO_TIME)
  {
  }

  /** The latest time a strictly increasing stamping of the first k + 1 appends must have reached:
      each append is one past the one before it, or its own time if that is later. */
  function Reached(es: seq<Entry>, k: nat): int
    requires k < |es|
  {
    if k == 0 then es[0].at
    else
      var before := Reached(es, k - 1);
      if es[k].at > before then es[k].at else before + 1
  }

  /** Append k comes when the stamping stands exactly at the unset time, and is not after it. */
  predicate Collides(es: seq<Entry>, k: nat)
    requires k < |es|
  {
    k > 0 && Reached(es, k - 1) == ZERO_TIME && es[k].at <= ZERO_TIME
  }

  predicate NeverCollides(es: seq<Entry>) {
    forall k :: 0 <= k < |es| ==> !Collides(es, k)
  }

  lemma {:induction false} ReachedLooksBack(es: seq<Entry>, n: nat, k: nat)
    requires k < n <= |es|
    ensures Reached(es[..n], k) == Reached(es, k)
  {
    if k > 0 {
      ReachedLooksBack(es, n, k - 1);
    }
  }

  lemma CollidesLooksBack(es: seq<Entry>, n: nat)
    requires n <= |es|
    ensures forall k :: 0 <= k < n ==> (Collides(es[..n], k) <==> Collides(es, k))
  {
    forall k | 0 <= k < n
      ensures Collides(es[..n], k) <==> Collides(es, k)
    {
      if k > 0 {
        ReachedLooksBack(es, n, k - 1);
      }
    }
  }

  /** Exactly when one more append keeps the stamps increasing. */
  lemma IncreasingStep(history: seq<Entry>, e: Entry)
    requires Increasing(history)
    ensures Increasing(history + [Stored(history, e)]) <==>
            history == [] || !(LastAt(history) == ZERO_TIME && e.at <= ZERO_TIME)
  {
    var history' := history + [Stored(history, e)];
    var n := |history|;
    if n > 0 {
      assert history'[n - 1].at == LastAt(history) && history'[n].at == Stamp(LastAt(history), e.at);
      StampMovesOn(LastAt(history), e.at);
    }
  }

  lemma IncreasingPrefix(history: seq<Entry>, n: nat)
    requires Increasing(history) && n <= |history|
    ensures Increasing(history[..n])
  {
  }

  /** Over every list of appends: the stored stamps strictly increase if and only if no append
      collides, and then they are the times reached. */
  lemma {:induction false} IncreasingExactly(es: seq<Entry>)
    ensures Increasing(AppendAll(es)) <==> NeverCollides(es)
    ensures NeverCollides(es) && es != [] ==> LastAt(AppendAll(es)) == Reached(es, |es| - 1)
  {
    if es != [] {
      var n := |es| - 1;
      var h := AppendAll(es[..n]);
      IncreasingExactly(es[..n]);
      CollidesLooksBack(es, n);
      if Increasing(AppendAll(es)) {
        IncreasingPrefix(AppendAll(es), n);
        assert AppendAll(es)[..n] == h;
      }
      if NeverCollides(es[..n]) {
        LastStep(es, n, h);
      }
    }
  }

  /** The failing side is real: of two appends at the unset time the second is not after the first. */
  lemma UnsetStampsCollide(e: Entry)
    requires e.at == ZERO_TIME
    ensures !Increasing(AppendAll([e, e]))
  {
    assert Collides([e, e], 1);
    IncreasingExactly([e, e]);
  }

  lemma LastStep(es: seq<Entry>, n: nat, h: seq<Entry>)
    requires |es| == n + 1 && h == AppendAll(es[..n]) && Increasing(h)
    requires n > 0 ==> LastAt(h) == Reached(es[..n], n - 1)
    ensures Increasing(AppendAll(es)) <==> !Collides(es, n)
    ensures !Collides(es, n) ==> LastAt(AppendAll(es)) == Reached(es, n)
  {
    IncreasingStep(h, es[n]);
    if n > 0 {
      ReachedLooksBack(es, n, n - 1);
    }
  }

  /** With set stamps the stored ones strictly increase over the whole history, and are set. */
  lemma StampsIncrease(es: seq<Entry>)
    requires forall i :: 0 <= i < |es| ==> es[i].at > ZERO_TIME
    ensures Increasing(AppendAll(es)) && forall i :: 0 <= i < |es| ==> AppendAll(es)[i].at > ZERO_TIME
  {
    forall k | 0 <= k < |es|
      ensures !Collides(es, k) && AppendAll(es)[k].at > ZERO_TIME
    {
      StoredIsSet(es, k);
    }
    IncreasingExactly(es);
  }

  lemma {:induction false} StoredIsSet(es: seq<Entry>, k: nat)
    requires k < |es| && forall i :: 0 <= i < |es| ==> es[i].at > ZERO_TIME
    ensures AppendAll(es)[k].at > ZERO_TIME
  {
    var n := |es| - 1;
    if k < n {
      StoredIsSet(es[..n], k);
    } else if n > 0 {
      StoredIsSet(es[..n], n - 1);
    }
  }

  /** Resuming by the time of an entry gives exactly what resuming by its number gives, whether the
      entry is still held or was evicted meanwhile. */
  lemma ResumeByTimeIsBySeqno(v: View, b: Bounds, k: nat)
    requires Sound(b, v) && Increasing(v.history) && k < |v.history| && v.history[k].at != ZERO_TIME
    ensures Since(v.history[v.first..], v.history[k].at) == HeldFrom(v, k)
  {
    var held, start := v.history[v.first..], if k < v.first then 0 else k - v.first;
    forall i | 0 <= i < |held|
      ensures held[i].at >= v.history[k].at <==> i >= start
    {
      StampOrder(v.history, v.first + i, k);
    }
    SinceIsSuffix(held, v.history[k].at, start);
    HeldFromIs(v, k, start);
  }

  lemma StampOrder(h: seq<Entry>, i: nat, k: nat)
    requires Increasing(h) && i < |h| && k < |h|
    ensures h[i].at >= h[k].at <==> i >= k
  {
  }

  lemma HeldFromIs(v: View, k: nat, start: nat)
    requires v.first <= |v.history| && k < |v.history| && start == if k < v.first then 0 else k - v.first
    ensures start <= |v.history| - v.first && v.history[v.first..][start..] == HeldFrom(v, k)
  {
    assert v.history[v.first..][start..] == v.history[v.first + start..];
  }

  /** From the appends alone: in every ring that took appends with set stamps, resuming by any
      entry's stored time is resuming by its number. */
  lemma ResumeAfterAppends(es: seq<Entry>, v: View, b: Bounds, k: nat)
    requires Sound(b, v) && Records(v.history, es) && k < |es|
    requires forall i :: 0 <= i < |es| ==> es[i].at > ZERO_TIME
    ensures Since(v.history[v.first..], v.history[k].at) == HeldFrom(v, k)
  {
    RecordsAreAppends(v.history, es);
    StampsIncrease(es);
    ResumeByTimeIsBySeqno(v, b, k);
  }

  lemma {:induction false} SinceIsSuffix(es: seq<Entry>, since: int, k: nat)
    requires since != ZERO_TIME && k <= |es|
    requires forall i :: 0 <= i < |es| ==> (es[i].at >= since <==> i >= k)
    ensures Since(es, since) == es[k..]
  {
    if es != [] {
      var n := |es| - 1;
      if k <= n {
        SinceIsSuffix(es[..n], since, k);
        assert es[k..] == es[..n][k..] + [es[n]];
      } else {
        SinceIsSuffix(es[..n], since, n);
      }
    }
  }
}
