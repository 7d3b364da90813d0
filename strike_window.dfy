/** The strike selector's window: from the option chain's strikes, the 20
    nearest strikes strictly above the current spot and the 20 nearest
    strictly below it, merged in ascending order. */
module StrikeWindow {
  import opened Sorting

  /** Strikes kept on each side of the spot. */
  const SideSize: nat := 20

  /** `[x for x in s if x > spot]`. */
  function StrictlyAbove(s: seq<real>, spot: real): (r: seq<real>)
    ensures forall x :: x in r <==> x in s && x > spot
    ensures |r| <= |s|
  {
    if s == [] then []
    else if s[0] > spot then [s[0]] + StrictlyAbove(s[1..], spot)
    else StrictlyAbove(s[1..], spot)
  }

  /** `[x for x in s if x < spot]`. */
  function StrictlyBelow(s: seq<real>, spot: real): (r: seq<real>)
    ensures forall x :: x in r <==> x in s && x < spot
    ensures |r| <= |s|
  {
    if s == [] then []
    else if s[0] < spot then [s[0]] + StrictlyBelow(s[1..], spot)
    else StrictlyBelow(s[1..], spot)
  }

  /** The strikes offered for selection. `chainStrikes` is the option
      chain's strike column in any order. */
  function Window(chainStrikes: seq<real>, spot: real): (w: seq<real>)
    ensures Sorted(w)
    ensures |w| <= 2 * SideSize
  {
    var all := Sort(chainStrikes);
    var above := Take(StrictlyAbove(all, spot), SideSize);
    var below := Take(StrictlyBelow(Reverse(all), spot), SideSize);
    Sort(below + above)
  }

  /** The strikes below the spot that the window keeps: the last (largest)
      `SideSize` of them, in the order of `all`. */
  function NearestBelow(all: seq<real>, spot: real): (r: seq<real>)
    ensures |r| <= SideSize
    ensures forall x :: x in r ==> x in all && x < spot
  {
    var below := StrictlyBelow(all, spot);
    var r := below[|below| - |Take(below, SideSize)|..];
    assert forall x :: x in r ==> x in below;
    r
  }

  /** The strikes above the spot that the window keeps: the first
      (smallest) `SideSize` of them, in the order of `all`. */
  function NearestAbove(all: seq<real>, spot: real): (r: seq<real>)
    ensures |r| <= SideSize
    ensures forall x :: x in r ==> x in all && x > spot
  {
    var above := StrictlyAbove(all, spot);
    var r := Take(above, SideSize);
    assert forall x :: x in r ==> x in above;
    r
  }

  // ---------------------------------------------------------------------
  // Filtering facts

  lemma {:induction false} AboveOfSorted(s: seq<real>, spot: real)
    requires Sorted(s)
    ensures Sorted(StrictlyAbove(s, spot))
  {
    if s != [] {
      AboveOfSorted(s[1..], spot);
      var rest := StrictlyAbove(s[1..], spot);
      assert forall k :: 0 <= k < |rest| ==> rest[k] in s[1..];
      assert forall x :: x in s[1..] ==> s[0] <= x;
    }
  }

  lemma {:induction false} BelowOfSorted(s: seq<real>, spot: real)
    requires Sorted(s)
    ensures Sorted(StrictlyBelow(s, spot))
  {
    if s != [] {
      BelowOfSorted(s[1..], spot);
      var rest := StrictlyBelow(s[1..], spot);
      assert forall k :: 0 <= k < |rest| ==> rest[k] in s[1..];
      assert forall x :: x in s[1..] ==> s[0] <= x;
    }
  }

  lemma {:induction false} BelowDistributes(a: seq<real>, b: seq<real>, spot: real)
    ensures StrictlyBelow(a + b, spot) == StrictlyBelow(a, spot) + StrictlyBelow(b, spot)
  {
    if a != [] {
      assert (a + b)[1..] == a[1..] + b;
      BelowDistributes(a[1..], b, spot);
    } else {
      assert a + b == b;
    }
  }

  lemma {:induction false} AboveDistributes(a: seq<real>, b: seq<real>, spot: real)
    ensures StrictlyAbove(a + b, spot) == StrictlyAbove(a, spot) + StrictlyAbove(b, spot)
  {
    if a != [] {
      assert (a + b)[1..] == a[1..] + b;
      AboveDistributes(a[1..], b, spot);
    } else {
      assert a + b == b;
    }
  }

  /** Filtering the reversed list is reversing the filtered list. */
  lemma {:induction false} BelowOfReverse(s: seq<real>, spot: real)
    ensures StrictlyBelow(Reverse(s), spot) == Reverse(StrictlyBelow(s, spot))
  {
    if s != [] {
      BelowOfReverse(s[1..], spot);
      BelowDistributes(Reverse(s[1..]), [s[0]], spot);
      var tail := StrictlyBelow(s[1..], spot);
      if s[0] < spot {
        assert ([s[0]] + tail)[1..] == tail;
      }
    }
  }

  /** Filtering keeps everything when every element passes. */
  lemma {:induction false} AboveOfAllAbove(s: seq<real>, spot: real)
    requires forall x :: x in s ==> x > spot
    ensures StrictlyAbove(s, spot) == s
  {
    if s != [] {
      assert s[0] in s && forall x :: x in s[1..] ==> x in s;
      AboveOfAllAbove(s[1..], spot);
      assert s == [s[0]] + s[1..];
    }
  }

  lemma {:induction false} BelowOfAllBelow(s: seq<real>, spot: real)
    requires forall x :: x in s ==> x < spot
    ensures StrictlyBelow(s, spot) == s
  {
    if s != [] {
      assert s[0] in s && forall x :: x in s[1..] ==> x in s;
      BelowOfAllBelow(s[1..], spot);
      assert s == [s[0]] + s[1..];
    }
  }

  /** Filtering keeps nothing when no element passes. */
  lemma {:induction false} AboveOfNoneAbove(s: seq<real>, spot: real)
    requires forall x :: x in s ==> x <= spot
    ensures StrictlyAbove(s, spot) == []
  {
    if s != [] {
      assert s[0] in s && forall x :: x in s[1..] ==> x in s;
      AboveOfNoneAbove(s[1..], spot);
    }
  }

  lemma {:induction false} BelowOfNoneBelow(s: seq<real>, spot: real)
    requires forall x :: x in s ==> x >= spot
    ensures StrictlyBelow(s, spot) == []
  {
    if s != [] {
      assert s[0] in s && forall x :: x in s[1..] ==> x in s;
      BelowOfNoneBelow(s[1..], spot);
    }
  }

  /** The first `n` of a reversed list are the last `n` of the list,
      reversed. */
  lemma TakeOfReverse(s: seq<real>, n: nat)
    ensures Take(Reverse(s), n) == Reverse(s[|s| - |Take(Reverse(s), n)|..])
  {
  }

  /** Ascending prices below the spot followed by ascending prices above
      it are ascending. */
  lemma SortedAcrossSpot(lower: seq<real>, upper: seq<real>, spot: real)
    requires Sorted(lower) && Sorted(upper)
    requires forall x :: x in lower ==> x < spot
    requires forall x :: x in upper ==> x > spot
    ensures Sorted(lower + upper)
  {
    var s := lower + upper;
    forall i, j | 0 <= i < j < |s|
      ensures s[i] <= s[j]
    {
      if j < |lower| {
      } else if i >= |lower| {
        assert s[i] == upper[i - |lower|] && s[j] == upper[j - |lower|];
      } else {
        assert s[i] in lower && s[j] in upper;
      }
    }
  }

  // ---------------------------------------------------------------------
  // The window in closed form

  /** Taking the first `SideSize` strikes below the spot from the reversed
      list gives the nearest ones below, reversed. */
  lemma ReversedLowerSide(all: seq<real>, spot: real)
    ensures Take(StrictlyBelow(Reverse(all), spot), SideSize) == Reverse(NearestBelow(all, spot))
  {
    BelowOfReverse(all, spot);
    TakeOfReverse(StrictlyBelow(all, spot), SideSize);
  }

  /** The window is the kept strikes below the spot, ascending, followed by
      the kept strikes above it: `sorted(below + above)` only undoes the
      reversal of the below side. */
  lemma WindowShape(chainStrikes: seq<real>, spot: real)
    ensures Window(chainStrikes, spot) == NearestBelow(Sort(chainStrikes), spot) + NearestAbove(Sort(chainStrikes), spot)
  {
    var all := Sort(chainStrikes);
    var above := NearestAbove(all, spot);
    var below := Take(StrictlyBelow(Reverse(all), spot), SideSize);
    var lower := NearestBelow(all, spot);
    BelowOfSorted(all, spot);
    AboveOfSorted(all, spot);
    ReversedLowerSide(all, spot);
    ReversePermutes(lower);
    SortedAcrossSpot(lower, above, spot);
    assert multiset(lower + above) == multiset(below + above);
    SortedPermutationUnique(Sort(below + above), lower + above);
  }

  /** The window holds at most `SideSize` strikes above the spot, and they
      are the first `SideSize` of the ascending strikes above it. */
  lemma WindowAboveSide(chainStrikes: seq<real>, spot: real)
    ensures StrictlyAbove(Window(chainStrikes, spot), spot) == NearestAbove(Sort(chainStrikes), spot)
    ensures |StrictlyAbove(Window(chainStrikes, spot), spot)| <= SideSize
  {
    var all := Sort(chainStrikes);
    WindowShape(chainStrikes, spot);
    AboveDistributes(NearestBelow(all, spot), NearestAbove(all, spot), spot);
    AboveOfNoneAbove(NearestBelow(all, spot), spot);
    AboveOfAllAbove(NearestAbove(all, spot), spot);
  }

  /** Likewise at most `SideSize` strikes below the spot: the last
      `SideSize` of the ascending strikes below it. */
  lemma WindowBelowSide(chainStrikes: seq<real>, spot: real)
    ensures StrictlyBelow(Window(chainStrikes, spot), spot) == NearestBelow(Sort(chainStrikes), spot)
    ensures |StrictlyBelow(Window(chainStrikes, spot), spot)| <= SideSize
  {
    var all := Sort(chainStrikes);
    WindowShape(chainStrikes, spot);
    BelowDistributes(NearestBelow(all, spot), NearestAbove(all, spot), spot);
    BelowOfNoneBelow(NearestAbove(all, spot), spot);
    BelowOfAllBelow(NearestBelow(all, spot), spot);
  }

  /** In an ascending list, a prefix holds the smallest elements: anything
      outside it is at least every element inside it, and exists only if
      the prefix is proper. */
  lemma PrefixHoldsSmallest(a: seq<real>, n: nat, x: real, y: real)
    requires Sorted(a) && n <= |a|
    requires x in a[..n] && y in a && y !in a[..n]
    ensures x <= y && n < |a|
  {
    var i :| 0 <= i < n && a[..n][i] == x;
    var j :| 0 <= j < |a| && a[j] == y;
    assert j >= n by {
      assert forall k :: 0 <= k < n ==> a[..n][k] == a[k];
    }
    assert a[i] == x;
  }

  /** In an ascending list, a suffix holds the largest elements: anything
      outside it is at most every element inside it, and exists only if
      the suffix is proper. */
  lemma SuffixHoldsLargest(a: seq<real>, start: nat, x: real, y: real)
    requires Sorted(a) && start <= |a|
    requires x in a[start..] && y in a && y !in a[start..]
    ensures y <= x && start > 0
  {
    var i :| 0 <= i < |a| - start && a[start..][i] == x;
    var j :| 0 <= j < |a| && a[j] == y;
    assert j < start by {
      assert forall k :: start <= k < |a| ==> a[start..][k - start] == a[k];
    }
    assert a[start + i] == x;
  }

  /** Sorting keeps the same strikes. */
  lemma SortKeepsStrikes(s: seq<real>, y: real)
    ensures y in Sort(s) <==> y in s
  {
    assert y in Sort(s) <==> y in multiset(Sort(s));
    assert y in s <==> y in multiset(s);
  }

  /** The strikes above the spot in the window are the nearest ones: a
      strike above the spot that was left out is at least as high as every
      kept one, and leaving one out means the side is full. */
  lemma NearestAboveKept(chainStrikes: seq<real>, spot: real, x: real, y: real)
    requires x in Window(chainStrikes, spot) && x > spot
    requires y in chainStrikes && y > spot && y !in Window(chainStrikes, spot)
    ensures x <= y
    ensures |StrictlyAbove(Window(chainStrikes, spot), spot)| == SideSize
  {
    var all := Sort(chainStrikes);
    var A := StrictlyAbove(all, spot);
    var kept := NearestAbove(all, spot);
    WindowShape(chainStrikes, spot);
    WindowAboveSide(chainStrikes, spot);
    AboveOfSorted(all, spot);
    SortKeepsStrikes(chainStrikes, y);
    assert x in kept && y !in kept;
    PrefixHoldsSmallest(A, |kept|, x, y);
  }

  /** The strikes below the spot in the window are the nearest ones: a
      strike below the spot that was left out is at most as high as every
      kept one, and leaving one out means the side is full. */
  lemma NearestBelowKept(chainStrikes: seq<real>, spot: real, x: real, y: real)
    requires x in Window(chainStrikes, spot) && x < spot
    requires y in chainStrikes && y < spot && y !in Window(chainStrikes, spot)
    ensures y <= x
    ensures |StrictlyBelow(Window(chainStrikes, spot), spot)| == SideSize
  {
    var all := Sort(chainStrikes);
    var X := StrictlyBelow(all, spot);
    var kept := NearestBelow(all, spot);
    WindowShape(chainStrikes, spot);
    WindowBelowSide(chainStrikes, spot);
    BelowOfSorted(all, spot);
    SortKeepsStrikes(chainStrikes, y);
    assert x in kept && y !in kept;
    SuffixHoldsLargest(X, |X| - |Take(X, SideSize)|, x, y);
  }

  /** Every strike offered comes from the option chain and differs from
      the spot. */
  lemma WindowFromChain(chainStrikes: seq<real>, spot: real, x: real)
    requires x in Window(chainStrikes, spot)
    ensures x in chainStrikes && x != spot
  {
    WindowShape(chainStrikes, spot);
    SortKeepsStrikes(chainStrikes, x);
  }
}
