/** The ranking half of getClosestPoint (main.go:93-101): sort the annotated copies by
    `dist` and report the first five. */
module Ranking {
  import opened Points

  /** How many points getClosestPoint reports (`nearby[:5]`). */
  const ReportSize: nat := 5

  /** Non-decreasing in `dist`, the only key `sort.Slice` compares. */
  predicate SortedByDist(s: seq<Point>)
  {
    forall x, y :: 0 <= x < y < |s| ==> s[x].dist <= s[y].dist
  }

  /** The first `n` cells of `a` are in ascending `dist` order. */
  ghost predicate SortedUpTo(a: array<Point>, n: nat)
    requires n <= a.Length
    reads a
  {
    forall x, y :: 0 <= x < y < n ==> a[x].dist <= a[y].dist
  }

  method Swap(a: array<Point>, i: nat, j: nat)
    requires i < j < a.Length
    modifies a
    ensures a[i] == old(a[j]) && a[j] == old(a[i])
    ensures forall k :: 0 <= k < a.Length && k != i && k != j ==> a[k] == old(a[k])
    ensures multiset(a[..]) == multiset(old(a[..]))
  {
    a[i], a[j] := a[j], a[i];
  }

  /** One insertion step: moves `a[i]` left into the sorted prefix `a[..i]`. */
  method InsertAt(a: array<Point>, i: nat)
    requires i < a.Length && SortedUpTo(a, i)
    modifies a
    ensures SortedUpTo(a, i + 1)
    ensures forall k :: i < k < a.Length ==> a[k] == old(a[k])
    ensures multiset(a[..]) == multiset(old(a[..]))
  {
    var j := i;
    while j > 0 && a[j - 1].dist > a[j].dist
      invariant 0 <= j <= i
      invariant forall x, y :: 0 <= x < y <= i && x != j && y != j ==> a[x].dist <= a[y].dist
      invariant forall y :: j < y <= i ==> a[j].dist <= a[y].dist
      invariant forall k :: i < k < a.Length ==> a[k] == old(a[k])
      invariant multiset(a[..]) == multiset(old(a[..]))
    {
      Swap(a, j - 1, j);
      j := j - 1;
    }
  }

  /** `sort.Slice(nearby, less)` with `less(i, j) == nearby[i].dist < nearby[j].dist`.
      The library sort is not stable, so the contract admits every ordering of equal
      distances: sorted, and a permutation of what was there. */
  method SortByDist(a: array<Point>)
    modifies a
    ensures SortedByDist(a[..])
    ensures multiset(a[..]) == multiset(old(a[..]))
  {
    var i := 0;
    while i < a.Length
      invariant 0 <= i <= a.Length
      invariant SortedUpTo(a, i)
      invariant multiset(a[..]) == multiset(old(a[..]))
    {
      InsertAt(a, i);
      i := i + 1;
    }
  }

  /** `nearby[:5]`: the first five points, or the slice-bounds panic when fewer were
      collected. */
  function Report(sorted: seq<Point>): (r: Result<seq<Point>>)
    ensures r.Ok? <==> |sorted| >= ReportSize
    ensures r.Err? ==> r.error == SliceOutOfRange
  {
    if |sorted| >= ReportSize then Ok(sorted[..ReportSize]) else Err(SliceOutOfRange)
  }

  /** What the report means on a sorted list: five of the collected points, in ascending
      order, and no point left out is closer than any point reported. */
  lemma Report_Nearest(s: seq<Point>)
    requires SortedByDist(s)
    requires |s| >= ReportSize
    ensures |Report(s).value| == ReportSize
    ensures SortedByDist(Report(s).value)
    ensures multiset(Report(s).value) <= multiset(s)
    ensures forall p, i :: p in multiset(s) - multiset(Report(s).value) && 0 <= i < ReportSize
              ==> Report(s).value[i].dist <= p.dist
  {
    Prefix_Nearest(s, ReportSize);
  }

  /** The same for any prefix of a sorted list. */
  lemma Prefix_Nearest(s: seq<Point>, n: nat)
    requires SortedByDist(s)
    requires n <= |s|
    ensures SortedByDist(s[..n])
    ensures multiset(s[..n]) <= multiset(s)
    ensures forall p, i :: p in multiset(s) - multiset(s[..n]) && 0 <= i < n ==> s[..n][i].dist <= p.dist
  {
    var top, rest := s[..n], s[n..];
    assert s == top + rest;
    assert multiset(s) == multiset(top) + multiset(rest);
    forall p, i | p in multiset(s) - multiset(top) && 0 <= i < n
      ensures top[i].dist <= p.dist
    {
      assert p in multiset(rest);
      var j :| 0 <= j < |rest| && rest[j] == p;
      assert s[i] == top[i] && s[n + j] == p;
    }
  }
}
