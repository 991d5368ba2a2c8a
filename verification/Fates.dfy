/** What of a stretch reached a subscriber and what was dropped, each item's fate on record. */
module Fates {
  /** The items of xs that a list of fates kept, or lost. */
  function Pick<T>(xs: seq<T>, fates: seq<bool>, want: bool): seq<T>
    requires |xs| == |fates|
  {
    if xs == [] then []
    else
      var n := |xs| - 1;
      Pick(xs[..n], fates[..n], want) + if fates[n] == want then [xs[n]] else []
  }

  lemma PickMore<T>(xs: seq<T>, fates: seq<bool>, want: bool, x: T, fate: bool)
    requires |xs| == |fates|
    ensures Pick(xs + [x], fates + [fate], want) ==
            if fate == want then Pick(xs, fates, want) + [x] else Pick(xs, fates, want)
  {
    assert (xs + [x])[..|xs|] == xs && (fates + [fate])[..|xs|] == fates;
  }

  lemma {:induction false} PickIsShort<T>(xs: seq<T>, fates: seq<bool>, want: bool)
    requires |xs| == |fates|
    ensures |Pick(xs, fates, want)| <= |xs|
  {
    if xs != [] {
      var n := |xs| - 1;
      PickIsShort(xs[..n], fates[..n], want);
    }
  }

  /** Everything is kept exactly when nothing was lost; otherwise less is. */
  lemma {:induction false} KeptWhole<T>(xs: seq<T>, fates: seq<bool>)
    requires |xs| == |fates|
    ensures if false in fates then |Pick(xs, fates, true)| < |xs| else Pick(xs, fates, true) == xs
  {
    if xs != [] {
      var n := |xs| - 1;
      var x, fate := xs[n], fates[n];
      KeptWhole(xs[..n], fates[..n]);
      PickIsShort(xs[..n], fates[..n], true);
      Whole(xs);
      Whole(fates);
      PickMore(xs[..n], fates[..n], true, x, fate);
    }
  }

  lemma Whole<T>(xs: seq<T>)
    requires xs != []
    ensures xs == xs[..|xs| - 1] + [xs[|xs| - 1]]
  {
  }
}
