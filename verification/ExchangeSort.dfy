/** The in-place exchange sort of the election and of the shard lookup, and why
    its result does not depend on the order it starts from. */
module ExchangeSort {
  import opened Common

  /** No later element belongs before an earlier one. */
  ghost predicate Sorted<T(!new)>(s: seq<T>, before: (T, T) -> bool) {
    forall i, j :: 0 <= i < j < |s| ==> !before(s[j], s[i])
  }

  /** `before` is a strict order whose ties are transitive. */
  ghost predicate Orders<T(!new)>(before: (T, T) -> bool) {
    && (forall x, y :: before(x, y) ==> !before(y, x))
    && (forall x, y, z :: before(x, z) ==> before(x, y) || before(y, z))
  }

  /** A swap test that never leaves a misplaced pair and never makes one. */
  ghost predicate Settles<T(!new)>(swap: (T, T) -> bool, before: (T, T) -> bool) {
    forall x, y :: if swap(x, y) then !before(x, y) else !before(y, x)
  }

  /** Of two arrangements of the same distinct elements only one is sorted. */
  lemma {:induction false} SortedIsUnique<T(!new)>(s: seq<T>, t: seq<T>, before: (T, T) -> bool)
    requires multiset(s) == multiset(t) && Sorted(s, before) && Sorted(t, before)
    requires forall x, y :: x in s && y in s && !before(x, y) && !before(y, x) ==> x == y
    requires forall x :: x in s ==> !before(x, x)
    ensures s == t
  {
    assert |multiset(s)| == |s| && |multiset(t)| == |t|;
    if s != [] {
      var x, y := s[0], t[0];
      assert x in multiset(t) && y in multiset(s);
      assert x in t && y in s;
      assert !before(y, x) by {
        var i :| 0 <= i < |s| && s[i] == y;
      }
      assert !before(x, y) by {
        var i :| 0 <= i < |t| && t[i] == x;
      }
      assert s == [x] + s[1..] && t == [x] + t[1..];
      assert multiset(s[1..]) == multiset(s) - multiset{x};
      assert multiset(t[1..]) == multiset(t) - multiset{x};
      SortedIsUnique(s[1..], t[1..], before);
    }
  }

  ghost function AheadIn<T(!new)>(s: seq<T>, before: (T, T) -> bool, y: T): set<T> {
    set x | x in s && before(x, y)
  }

  /** In a sorted arrangement exactly the first i elements come before element i. */
  lemma AheadOfPosition<T(!new)>(s: seq<T>, before: (T, T) -> bool, i: nat)
    requires i < |s| && NoDuplicates(s) && Sorted(s, before) && !before(s[i], s[i])
    requires forall j :: 0 <= j < i ==> before(s[j], s[i]) || before(s[i], s[j])
    ensures |AheadIn(s, before, s[i])| == i
  {
    var ahead := AheadIn(s, before, s[i]);
    assert ahead == Elements(s[..i]) by {
      forall x | x in ahead ensures x in s[..i] {
        var j :| 0 <= j < |s| && s[j] == x;
        assert j < i;
        assert s[..i][j] == x;
      }
    }
    DistinctSize(s[..i]);
  }

  ghost function Swapped<T>(s: seq<T>, i: nat, j: nat): seq<T>
    requires i < |s| && j < |s|
  {
    s[i := s[j]][j := s[i]]
  }

  /** The first i places are final. */
  ghost predicate Settled<T(!new)>(s: seq<T>, before: (T, T) -> bool, i: nat) {
    forall p, q :: 0 <= p < i && p < q < |s| ==> !before(s[q], s[p])
  }

  /** Nothing in places i to j belongs before place i. */
  ghost predicate Least<T(!new)>(s: seq<T>, before: (T, T) -> bool, i: nat, j: nat)
    requires i < |s|
  {
    forall q :: i < q < j && q < |s| ==> !before(s[q], s[i])
  }

  lemma SwapKeepsOrder<T(!new)>(s: seq<T>, before: (T, T) -> bool, i: nat, j: nat)
    requires Orders(before) && i < j < |s| && !before(s[i], s[j])
    requires Settled(s, before, i) && Least(s, before, i, j)
    ensures multiset(Swapped(s, i, j)) == multiset(s)
    ensures Settled(Swapped(s, i, j), before, i) && Least(Swapped(s, i, j), before, i, j + 1)
  {
    var r := Swapped(s, i, j);
    forall p, q | 0 <= p < i && p < q < |s| ensures !before(r[q], r[p]) {
      assert r[p] == s[p];
      assert !before(s[i], s[p]) && !before(s[j], s[p]) && !before(s[q], s[p]);
    }
    forall q | i < q < j + 1 ensures !before(r[q], r[i]) {
      if q < j {
        assert !before(s[q], s[i]);
      }
    }
  }

  ghost function Step<T>(s: seq<T>, swap: (T, T) -> bool, i: nat, j: nat): seq<T>
    requires i < |s| && j < |s|
  {
    if swap(s[i], s[j]) then Swapped(s, i, j) else s
  }

  lemma StepKeepsOrder<T(!new)>(s: seq<T>, swap: (T, T) -> bool, before: (T, T) -> bool, i: nat, j: nat)
    requires Orders(before) && Settles(swap, before) && i < j < |s|
    requires Settled(s, before, i) && Least(s, before, i, j)
    ensures multiset(Step(s, swap, i, j)) == multiset(s)
    ensures Settled(Step(s, swap, i, j), before, i) && Least(Step(s, swap, i, j), before, i, j + 1)
  {
    if swap(s[i], s[j]) {
      SwapKeepsOrder(s, before, i, j);
    }
  }

  lemma PlaceDone<T(!new)>(s: seq<T>, before: (T, T) -> bool, i: nat)
    requires i < |s| && Settled(s, before, i) && Least(s, before, i, |s|)
    ensures Settled(s, before, i + 1)
  {}

  /** Each later element is compared with place i and exchanged when the test says so. */
  method Sort<T(!new)>(a: array<T>, swap: (T, T) -> bool, ghost before: (T, T) -> bool)
    requires Orders(before) && Settles(swap, before)
    modifies a
    ensures multiset(a[..]) == multiset(old(a[..])) && Sorted(a[..], before)
  {
    var n := a.Length;
    for i := 0 to n
      invariant multiset(a[..]) == multiset(old(a[..])) && Settled(a[..], before, i)
    {
      SettlePlace(a, swap, before, i);
    }
  }

  /** The inner loop. */
  method SettlePlace<T(!new)>(a: array<T>, swap: (T, T) -> bool, ghost before: (T, T) -> bool, i: nat)
    requires Orders(before) && Settles(swap, before)
    requires i < a.Length && Settled(a[..], before, i)
    modifies a
    ensures multiset(a[..]) == multiset(old(a[..])) && Settled(a[..], before, i + 1)
  {
    for j := i + 1 to a.Length
      invariant multiset(a[..]) == multiset(old(a[..]))
      invariant Settled(a[..], before, i) && Least(a[..], before, i, j)
    {
      ghost var s := a[..];
      StepKeepsOrder(s, swap, before, i, j);
      if swap(a[i], a[j]) {
        a[i], a[j] := a[j], a[i];
      }
      assert a[..] == Step(s, swap, i, j);
    }
    PlaceDone(a[..], before, i);
  }
}
