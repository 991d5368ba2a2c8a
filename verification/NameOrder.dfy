/** The lexicographic order of names, sorting, and why a sorted list of names is unique. */
module NameOrder {
  predicate Less(a: string, b: string) {
    b != "" && (a == "" || a[0] < b[0] || (a[0] == b[0] && Less(a[1..], b[1..])))
  }

  lemma {:induction false} LessIsOrder(a: string, b: string, c: string)
    ensures !Less(a, a)
    ensures Less(a, b) && Less(b, c) ==> Less(a, c)
    ensures a != b ==> Less(a, b) || Less(b, a)
  {
    if a == "" || b == "" {
      Irreflexive(a);
    } else if c == "" {
      Irreflexive(a);
      LessIsOrder(a[1..], b[1..], "");
      assert a == [a[0]] + a[1..] && b == [b[0]] + b[1..];
    } else {
      LessIsOrder(a[1..], b[1..], c[1..]);
      assert a == [a[0]] + a[1..] && b == [b[0]] + b[1..];
    }
  }

  lemma {:induction false} Irreflexive(a: string)
    ensures !Less(a, a)
  {
    if a != "" {
      Irreflexive(a[1..]);
    }
  }

  /** A name sorts before every longer name it begins. */
  lemma {:induction false} PrefixLess(a: string, b: string)
    requires |a| < |b| && a == b[..|a|]
    ensures Less(a, b)
  {
    if a != "" {
      PrefixLess(a[1..], b[1..]);
    }
  }

  predicate Sorted(names: seq<string>) {
    forall i, j :: 0 <= i < j < |names| ==> Less(names[i], names[j])
  }

  function Insert(names: seq<string>, n: string): seq<string> {
    if names == [] then [n] else if Less(n, names[0]) then [n] + names else [names[0]] + Insert(names[1..], n)
  }

  function Sort(names: seq<string>): seq<string> {
    if names == [] then [] else Insert(Sort(names[1..]), names[0])
  }

  lemma {:induction false} InsertHas(names: seq<string>, n: string, x: string)
    ensures x in Insert(names, n) <==> x == n || x in names
  {
    if names != [] && !Less(n, names[0]) {
      InsertHas(names[1..], n, x);
      assert names == [names[0]] + names[1..];
    }
  }

  lemma {:induction false} InsertSorts(names: seq<string>, n: string)
    requires Sorted(names) && n !in names
    ensures Sorted(Insert(names, n))
  {
    if names != [] {
      if Less(n, names[0]) {
        forall i | 0 <= i < |names|
          ensures Less(n, names[i])
        {
          LessIsOrder(n, names[0], names[i]);
        }
      } else {
        InsertSorts(names[1..], n);
        LessIsOrder(names[0], n, n);
        var rest := Insert(names[1..], n);
        forall i | 0 <= i < |rest|
          ensures Less(names[0], rest[i])
        {
          InsertHas(names[1..], n, rest[i]);
        }
      }
    }
  }

  predicate Distinct(names: seq<string>) {
    forall i, j :: 0 <= i < j < |names| ==> names[i] != names[j]
  }

  /** Sorting distinct names orders them strictly and keeps exactly them. */
  lemma {:induction false} SortSorts(names: seq<string>)
    requires Distinct(names)
    ensures Sorted(Sort(names)) && forall x :: x in Sort(names) <==> x in names
  {
    if names != [] {
      SortSorts(names[1..]);
      InsertSorts(Sort(names[1..]), names[0]);
      assert names == [names[0]] + names[1..];
      forall x
        ensures x in Sort(names) <==> x in names
      {
        InsertHas(Sort(names[1..]), names[0], x);
      }
    }
  }

  /** A sorted list is determined by its elements. */
  lemma {:induction false} SortedIsUnique(a: seq<string>, b: seq<string>)
    requires Sorted(a) && Sorted(b) && forall x :: x in a <==> x in b
    ensures a == b
  {
    assert b == [] || b[0] in b;
    if a != [] {
      SameFirst(a, b);
      Rest(a, b);
      SortedIsUnique(a[1..], b[1..]);
    }
  }

  lemma SameFirst(a: seq<string>, b: seq<string>)
    requires Sorted(a) && Sorted(b) && a != [] && forall x :: x in a <==> x in b
    ensures b != [] && a[0] == b[0]
  {
    assert a[0] in b;
    assert b[0] in a;
    LessIsOrder(a[0], b[0], a[0]);
  }

  lemma Rest(a: seq<string>, b: seq<string>)
    requires Sorted(a) && Sorted(b) && a != [] && b != [] && a[0] == b[0] && forall x :: x in a <==> x in b
    ensures forall x :: x in a[1..] <==> x in b[1..]
  {
    forall x
      ensures x in a[1..] <==> x in a && x != a[0]
      ensures x in b[1..] <==> x in b && x != b[0]
    {
      InRest(a, x);
      InRest(b, x);
    }
  }

  lemma InRest(names: seq<string>, x: string)
    requires Sorted(names) && names != []
    ensures x in names[1..] <==> x in names && x != names[0]
  {
    assert names == [names[0]] + names[1..];
    Irreflexive(names[0]);
    assert forall i :: 1 <= i < |names| ==> Less(names[0], names[i]);
  }

  lemma StepwiseSorted(names: seq<string>)
    requires forall i :: 0 <= i < |names| - 1 ==> Less(names[i], names[i + 1])
    ensures Sorted(names)
  {
    forall i, j | 0 <= i < j < |names|
      ensures Less(names[i], names[j])
    {
      Chain(names, i, j);
    }
  }

  lemma {:induction false} Chain(names: seq<string>, i: nat, j: nat)
    requires i < j < |names| && forall i :: 0 <= i < |names| - 1 ==> Less(names[i], names[i + 1])
    ensures Less(names[i], names[j])
    decreases j
  {
    if i < j - 1 {
      Chain(names, i, j - 1);
      LessIsOrder(names[i], names[j - 1], names[j]);
    }
    assert Less(names[j - 1], names[j - 1 + 1]);
  }
}
