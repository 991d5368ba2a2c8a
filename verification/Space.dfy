/** What an artifact pull may add to the volume, and the ledger pulls reserve it in. */
module Space {
  const TWO_64 := 0x1_0000_0000_0000_0000

  /** A missing blob: its declared size, and the length of the partial file it left before. */
  datatype Blob = Blob(size: int, partial: nat)

  /** How much of a blob its partial file spares the download: none once it is longer than the blob. */
  function PartialBytes(b: Blob): nat { if b.partial > b.size then 0 else b.partial }

  function Rest(b: Blob): int { b.size - PartialBytes(b) }

  function Sum(xs: seq<int>): int {
    if xs == [] then 0 else Sum(xs[..|xs| - 1]) + xs[|xs| - 1]
  }

  lemma {:induction false} SumConcat(a: seq<int>, b: seq<int>)
    ensures Sum(a + b) == Sum(a) + Sum(b)
    decreases |b|
  {
    if b == [] {
      assert a + b == a;
    } else {
      SumConcat(a, b[..|b| - 1]);
      assert (a + b)[..|a + b| - 1] == a + b[..|b| - 1];
    }
  }

  lemma {:induction false} SumNonNegative(xs: seq<int>)
    requires forall i :: 0 <= i < |xs| ==> xs[i] >= 0
    ensures Sum(xs) >= 0
  {
    if xs != [] {
      SumNonNegative(xs[..|xs| - 1]);
    }
  }

  predicate Descending(xs: seq<int>) {
    forall i, j :: 0 <= i < j < |xs| ==> xs[i] >= xs[j]
  }

  /** Where x goes in a descending list. */
  function Place(xs: seq<int>, x: int): (n: nat)
    ensures n <= |xs|
    ensures forall i :: 0 <= i < n ==> xs[i] >= x
    ensures n < |xs| ==> xs[n] < x
  {
    if xs == [] || xs[0] < x then 0 else 1 + Place(xs[1..], x)
  }

  function Insert(xs: seq<int>, x: int): seq<int> {
    xs[..Place(xs, x)] + [x] + xs[Place(xs, x)..]
  }

  /** sort.Slice, largest first. */
  function Sorted(xs: seq<int>): (ys: seq<int>)
    ensures |ys| == |xs|
  {
    if xs == [] then [] else Insert(Sorted(xs[..|xs| - 1]), xs[|xs| - 1])
  }

  lemma InsertDescending(xs: seq<int>, x: int)
    requires Descending(xs)
    ensures Descending(Insert(xs, x))
  {
    var n, ys := Place(xs, x), Insert(xs, x);
    assert forall i :: 0 <= i < |ys| ==> ys[i] == if i < n then xs[i] else if i == n then x else xs[i - 1];
  }

  lemma InsertPermutes(xs: seq<int>, x: int)
    ensures multiset(Insert(xs, x)) == multiset(xs) + multiset{x}
  {
    assert xs == xs[..Place(xs, x)] + xs[Place(xs, x)..];
  }

  lemma {:induction false} SortedDescending(xs: seq<int>)
    ensures Descending(Sorted(xs))
    ensures multiset(Sorted(xs)) == multiset(xs)
  {
    if xs != [] {
      var n := |xs| - 1;
      SortedDescending(xs[..n]);
      InsertDescending(Sorted(xs[..n]), xs[n]);
      InsertPermutes(Sorted(xs[..n]), xs[n]);
      assert xs == xs[..n] + [xs[n]];
    }
  }

  /** The sum of the k largest. */
  function TopSum(xs: seq<int>, k: nat): int {
    Sum(if |xs| <= k then Sorted(xs) else Sorted(xs)[..k])
  }

  function MaskSum(xs: seq<int>, mask: seq<bool>): int
    requires |xs| == |mask|
  {
    if xs == [] then 0
    else MaskSum(xs[..|xs| - 1], mask[..|xs| - 1]) + if mask[|xs| - 1] then xs[|xs| - 1] else 0
  }

  function MaskCount(mask: seq<bool>): nat {
    if mask == [] then 0 else MaskCount(mask[..|mask| - 1]) + if mask[|mask| - 1] then 1 else 0
  }

  lemma {:induction false} MaskConcat(a: seq<int>, b: seq<int>, ma: seq<bool>, mb: seq<bool>)
    requires |a| == |ma| && |b| == |mb|
    ensures MaskSum(a + b, ma + mb) == MaskSum(a, ma) + MaskSum(b, mb)
    ensures MaskCount(ma + mb) == MaskCount(ma) + MaskCount(mb)
    decreases |b|
  {
    if b == [] {
      assert a + b == a && ma + mb == ma;
    } else {
      var n := |b| - 1;
      MaskConcat(a, b[..n], ma, mb[..n]);
      assert (a + b)[..|a| + n] == a + b[..n] && (ma + mb)[..|a| + n] == ma + mb[..n];
    }
  }

  /** Sorting moves a selection along: the sorted list has one of the same sum and size. */
  lemma {:induction false} SortedMask(xs: seq<int>, mask: seq<bool>) returns (m: seq<bool>)
    requires |xs| == |mask|
    ensures |m| == |Sorted(xs)| && MaskSum(Sorted(xs), m) == MaskSum(xs, mask) && MaskCount(m) == MaskCount(mask)
  {
    if xs == [] {
      return [];
    }
    var n := |xs| - 1;
    var m0 := SortedMask(xs[..n], mask[..n]);
    var s, x, b := Sorted(xs[..n]), xs[n], mask[n];
    var p := Place(s, x);
    m := m0[..p] + [b] + m0[p..];
    MaskInsert(s, m0, p, x, b);
  }

  lemma MaskInsert(xs: seq<int>, m: seq<bool>, p: nat, x: int, b: bool)
    requires |xs| == |m| && p <= |xs|
    ensures MaskSum(xs[..p] + [x] + xs[p..], m[..p] + [b] + m[p..]) == MaskSum(xs, m) + if b then x else 0
    ensures MaskCount(m[..p] + [b] + m[p..]) == MaskCount(m) + if b then 1 else 0
  {
    MaskSplit(xs, m, p);
    MaskConcat(xs[..p] + [x], xs[p..], m[..p] + [b], m[p..]);
    MaskConcat(xs[..p], [x], m[..p], [b]);
    MaskOne(x, b);
  }

  lemma MaskOne(x: int, b: bool)
    ensures MaskSum([x], [b]) == (if b then x else 0) && MaskCount([b]) == if b then 1 else 0
  {
    assert [x][..0] == [] && [b][..0] == [];
  }

  lemma MaskSplit(xs: seq<int>, m: seq<bool>, p: nat)
    requires |xs| == |m| && p <= |xs|
    ensures MaskSum(xs, m) == MaskSum(xs[..p], m[..p]) + MaskSum(xs[p..], m[p..])
    ensures MaskCount(m) == MaskCount(m[..p]) + MaskCount(m[p..])
  {
    MaskConcat(xs[..p], xs[p..], m[..p], m[p..]);
    assert xs[..p] + xs[p..] == xs && m[..p] + m[p..] == m;
  }

  /** Of a descending list no selection of at most k beats the first k. */
  lemma {:induction false} FirstKDominates(xs: seq<int>, m: seq<bool>, k: nat)
    requires Descending(xs) && |xs| == |m| && MaskCount(m) <= k && forall i :: 0 <= i < |xs| ==> xs[i] >= 0
    ensures MaskSum(xs, m) <= Sum(if |xs| <= k then xs else xs[..k])
  {
    if xs != [] {
      var n := |xs| - 1;
      if m[n] {
        // The last element is selected: it is worth no more than element k - 1.
        FirstKDominates(xs[..n], m[..n], k - 1);
        if |xs| > k {
          assert xs[..k][..k - 1] == xs[..k - 1] && xs[..n][..k - 1] == xs[..k - 1];
          assert xs[k - 1] >= xs[n];
        }
      } else {
        FirstKDominates(xs[..n], m[..n], k);
        if |xs| > k {
          assert xs[..n][..k] == xs[..k];
          assert n == k ==> xs[..n] == xs[..k];
        }
      }
    }
  }

  /** The top-k sum dominates every selection of at most k elements. */
  lemma TopSumDominates(xs: seq<int>, mask: seq<bool>, k: nat)
    requires |xs| == |mask| && MaskCount(mask) <= k && forall i :: 0 <= i < |xs| ==> xs[i] >= 0
    ensures MaskSum(xs, mask) <= TopSum(xs, k)
  {
    var m := SortedMask(xs, mask);
    SortedDescending(xs);
    forall i | 0 <= i < |xs|
      ensures Sorted(xs)[i] >= 0
    {
      assert Sorted(xs)[i] in multiset(Sorted(xs));
      assert Sorted(xs)[i] in multiset(xs);
    }
    FirstKDominates(Sorted(xs), m, k);
  }

  function Rests(bs: seq<Blob>): seq<int> { seq(|bs|, i requires 0 <= i < |bs| => Rest(bs[i])) }

  function Sizes(bs: seq<Blob>): seq<int> { seq(|bs|, i requires 0 <= i < |bs| => bs[i].size) }

  /** The bytes to reserve for bs: all that is still to come over the wire, and room for a second
      copy of the k largest. */
  function Need(bs: seq<Blob>, k: nat): int { Sum(Rests(bs)) + TopSum(Sizes(bs), k) }

  predicate AllSized(bs: seq<Blob>) {
    forall i :: 0 <= i < |bs| ==> bs[i].size >= 0
  }

  datatype Checked = Sum64(n: nat) | SizeOverflow

  /** One checked 64-bit addition of a signed size. */
  function AddChecked(need: nat, n: int): Checked {
    if n < 0 || need + n >= TWO_64 then SizeOverflow else Sum64(need + n)
  }

  /** Add up xs with every step checked: exact, or refused when a term is negative or the sum
      does not fit. Since the terms are not negative, a prefix overflows only if the whole does. */
  method AddAll(start: nat, xs: seq<int>) returns (r: Checked)
    requires start < TWO_64
    ensures r.Sum64? <==> (forall i :: 0 <= i < |xs| ==> xs[i] >= 0) && start + Sum(xs) < TWO_64
    ensures r.Sum64? ==> r.n == start + Sum(xs)
  {
    var need := start;
    for i := 0 to |xs|
      invariant forall j :: 0 <= j < i ==> xs[j] >= 0
      invariant need == start + Sum(xs[..i]) < TWO_64
    {
      assert xs[..i + 1][..i] == xs[..i];
      var c := AddChecked(need, xs[i]);
      if c == SizeOverflow {
        if forall j :: 0 <= j < |xs| ==> xs[j] >= 0 {
          assert xs == xs[..i + 1] + xs[i + 1..];
          SumConcat(xs[..i + 1], xs[i + 1..]);
          SumNonNegative(xs[i + 1..]);
        }
        return SizeOverflow;
      }
      need := c.n;
    }
    assert xs[..|xs|] == xs;
    return Sum64(need);
  }

  /** spaceNeeded: exactly Need, or refused when a size is negative or the sum does not fit. */
  method SpaceNeeded(missing: seq<Blob>, maxConcurrent: nat) returns (r: Checked)
    ensures r.Sum64? <==> AllSized(missing) && Need(missing, maxConcurrent) < TWO_64
    ensures r.Sum64? ==> r.n == Need(missing, maxConcurrent)
  {
    var rests, sizes := Rests(missing), Sizes(missing);
    RestsSigns(missing);
    r := AddAll(0, rests);
    if AllSized(missing) {
      TopSumNonNegative(sizes, maxConcurrent);
    }
    if r == SizeOverflow {
      return;
    }
    SortedDescending(sizes);
    var top := if |sizes| <= maxConcurrent then Sorted(sizes) else Sorted(sizes)[..maxConcurrent];
    SortedNonNegative(sizes);
    r := AddAll(r.n, top);
  }

  /** The rest of a download is negative exactly when the declared size is. */
  lemma RestsSigns(bs: seq<Blob>)
    ensures AllSized(bs) <==> forall i :: 0 <= i < |bs| ==> Rests(bs)[i] >= 0
  {
    assert forall i :: 0 <= i < |bs| ==> (Rests(bs)[i] >= 0 <==> bs[i].size >= 0);
  }

  lemma SortedNonNegative(xs: seq<int>)
    requires forall i :: 0 <= i < |xs| ==> xs[i] >= 0
    ensures forall i :: 0 <= i < |xs| ==> Sorted(xs)[i] >= 0
  {
    SortedDescending(xs);
    forall i | 0 <= i < |xs|
      ensures Sorted(xs)[i] >= 0
    {
      assert Sorted(xs)[i] in multiset(Sorted(xs));
      assert Sorted(xs)[i] in multiset(xs);
    }
  }

  lemma TopSumNonNegative(xs: seq<int>, k: nat)
    requires forall i :: 0 <= i < |xs| ==> xs[i] >= 0
    ensures TopSum(xs, k) >= 0
  {
    SortedNonNegative(xs);
    SumNonNegative(if |xs| <= k then Sorted(xs) else Sorted(xs)[..k]);
  }

  /** One reservation: what it claims, and whether it is still held. */
  datatype Claim = Claim(n: nat, live: bool)

  function Held(claims: seq<Claim>): nat {
    if claims == [] then 0
    else Held(claims[..|claims| - 1]) + if claims[|claims| - 1].live then claims[|claims| - 1].n else 0
  }

  lemma {:induction false} HeldUpdate(claims: seq<Claim>, i: nat, c: Claim)
    requires i < |claims|
    ensures Held(claims[i := c]) ==
            Held(claims) - (if claims[i].live then claims[i].n else 0) + if c.live then c.n else 0
  {
    var n := |claims| - 1;
    if i < n {
      HeldUpdate(claims[..n], i, c);
      assert claims[i := c][..n] == claims[..n][i := c];
    } else {
      assert claims[i := c][..n] == claims[..n];
    }
  }

  datatype Reserved = Granted(id: nat, sampled: nat) | Overflow | NoFreeReading | Insufficient

  /** The in-process ledger concurrent pulls share. */
  class Reservations {
    var held: nat
    /** Every reservation handed out. */
    var claims: seq<Claim>

    ghost predicate Valid()
      reads this
    {
      held == Held(claims) && held < TWO_64
    }

    constructor ()
      ensures Valid() && held == 0 && claims == []
    {
      held, claims := 0, [];
    }

    /** reserve, in one critical section: the free space is sampled, and once more after one
        reclaim pass; -1 is a reading that failed. It grants exactly when the first sample, or a
        short first one and then the second, covers the floor and everything held with the new
        claim; nothing else changes the ledger, and no sum wraps. */
    method Reserve(need: nat, floor: nat, free: int, freeAfterReclaim: int) returns (r: Reserved)
      requires Valid() && need < TWO_64 && floor < TWO_64
      modifies this
      ensures Valid()
      ensures r == Overflow <==> floor + old(held) + need >= TWO_64
      ensures r.Granted? <==>
                var want := floor + old(held) + need;
                want < TWO_64 && (free >= want || (0 <= free && freeAfterReclaim >= want))
      ensures r == Insufficient <==>
                var want := floor + old(held) + need;
                want < TWO_64 && 0 <= free < want && 0 <= freeAfterReclaim < want
      ensures r.Granted? ==>
                held == old(held) + need && claims == old(claims) + [Claim(need, true)] && r.id == |old(claims)|
      ensures r.Granted? ==> r.sampled == if free >= floor + held then free else freeAfterReclaim
      ensures !r.Granted? ==> held == old(held) && claims == old(claims)
    {
      var claimed := AddChecked(held, need);
      if claimed == SizeOverflow {
        return Overflow;
      }
      var want := AddChecked(floor, claimed.n);
      if want == SizeOverflow {
        return Overflow;
      }
      if free < 0 {
        return NoFreeReading;
      }
      var sampled := free;
      if free < want.n {
        if freeAfterReclaim < 0 {
          return NoFreeReading;
        }
        if freeAfterReclaim < want.n {
          return Insufficient;
        }
        sampled := freeAfterReclaim;
      }
      assert (claims + [Claim(need, true)])[..|claims|] == claims;
      r := Granted(|claims|, sampled);
      held, claims := claimed.n, claims + [Claim(need, true)];
    }

    /** release, idempotent: a claim gives back exactly what it took, once, and no release
        underflows. */
    method Release(id: nat)
      requires Valid() && id < |claims|
      modifies this
      ensures Valid() && claims == old(claims)[id := old(claims)[id].(live := false)]
      ensures held == old(held) - if old(claims)[id].live then old(claims)[id].n else 0
    {
      HeldUpdate(claims, id, claims[id].(live := false));
      HeldAtLeast(claims, id);
      if claims[id].live {
        held := held - claims[id].n;
        claims := claims[id := claims[id].(live := false)];
      } else {
        assert claims[id := claims[id].(live := false)] == claims;
      }
    }
  }

  lemma {:induction false} HeldAtLeast(claims: seq<Claim>, i: nat)
    requires i < |claims|
    ensures claims[i].live ==> claims[i].n <= Held(claims)
  {
    if i < |claims| - 1 {
      HeldAtLeast(claims[..|claims| - 1], i);
    }
  }
}
