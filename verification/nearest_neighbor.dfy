/** The host side of nearest-neighbour matching (findNearestNeighbors,
    src/nearestNeighbor.cpp): the empty-input guard, the dispatch of the
    matching kernel, the sort of its correspondences by distance, and the
    pass that marks each correspondence as a duplicate (its reference point
    was already taken by a closer one) and as a match (distance below a
    fixed threshold).  The kernel itself is not modelled: its output is a
    parameter. */
module NearestNeighbor {
  import opened Common
  import opened Features
  import Sorting

  /** Distances below this are matches. */
  const MATCH_THRESHOLD: real := 0.035

  /** distPointsCmp orders by distance, smallest first (its header,
      nearestNeighbor.h, is not part of this model). */
  function DistLe(a: DistPoint, b: DistPoint): bool {
    a.dist <= b.dist
  }

  lemma DistLeTotalPreorder()
    ensures Sorting.TotalPreorder(DistLe)
  {
  }

  /** The correspondences in order of increasing distance. */
  function SortByDistance(dps: seq<DistPoint>): (r: seq<DistPoint>)
    ensures multiset(r) == multiset(dps) && |r| == |dps|
  {
    Sorting.Sort(DistLe, dps)
  }

  predicate AscendingDistance(dps: seq<DistPoint>) {
    forall i, j :: 0 <= i < j < |dps| ==> dps[i].dist <= dps[j].dist
  }

  lemma SortByDistanceAscending(dps: seq<DistPoint>)
    ensures AscendingDistance(SortByDistance(dps))
  {
    DistLeTotalPreorder();
    Sorting.SortSorted(DistLe, dps);
  }

  // ---------------------------------------------------------------------
  // Duplicate and match flags
  // ---------------------------------------------------------------------

  /** Entry k's reference point already occurs among the entries before it. */
  predicate SeenBefore(dps: seq<DistPoint>, k: nat)
    requires k < |dps|
  {
    exists j :: 0 <= j < k && dps[j].point2 == dps[k].point2
  }

  function MatchFlag(dist: real): int {
    if dist < MATCH_THRESHOLD then 1 else 0
  }

  /** The correspondences with both flags set as the marking pass sets
      them. */
  function Flagged(dps: seq<DistPoint>): (r: seq<DistPoint>)
    ensures |r| == |dps|
  {
    seq(|dps|, k requires 0 <= k < |dps| => dps[k].(dup := SeenBefore(dps, k), isMatch := MatchFlag(dps[k].dist)))
  }

  /** A correspondence without the two flags the marking pass writes. */
  function Unflagged(d: DistPoint): DistPoint {
    d.(dup := false, isMatch := 0)
  }

  /** The marking pass changes only the two flags: indices, coordinates,
      distance, orientation and scale differences stay as they are, and so
      does the order.  A correspondence is a match exactly when its
      distance is below the threshold, whether or not it is a duplicate. */
  lemma FlaggedChangesOnlyFlags(dps: seq<DistPoint>, k: nat)
    requires k < |dps|
    ensures Unflagged(Flagged(dps)[k]) == Unflagged(dps[k])
    ensures Flagged(dps)[k].isMatch == 1 <==> dps[k].dist < MATCH_THRESHOLD
    ensures Flagged(dps)[k].isMatch == 0 <==> dps[k].dist >= MATCH_THRESHOLD
  {
  }

  /** Every reference point that occurs has exactly one entry not marked as
      a duplicate: its first one. */
  lemma FirstOccurrenceIsTheOnlyOriginal(dps: seq<DistPoint>, k: nat)
    requires k < |dps|
    ensures !Flagged(dps)[k].dup <==> forall j :: 0 <= j < k ==> dps[j].point2 != dps[k].point2
    ensures forall m :: (0 <= m < |dps| && !Flagged(dps)[m].dup && !Flagged(dps)[k].dup
                         && dps[m].point2 == dps[k].point2) ==> m == k
  {
  }

  /** Every reference point that occurs is kept once: some entry with it is
      not a duplicate. */
  lemma {:induction false} SomeOriginal(dps: seq<DistPoint>, k: nat)
    requires k < |dps|
    ensures exists m :: 0 <= m <= k && dps[m].point2 == dps[k].point2 && !Flagged(dps)[m].dup
    decreases k
  {
    if SeenBefore(dps, k) {
      var j :| 0 <= j < k && dps[j].point2 == dps[k].point2;
      SomeOriginal(dps, j);
    } else {
      assert !Flagged(dps)[k].dup;
    }
  }

  /** After the sort, the entry kept for a reference point is its closest
      correspondence. */
  lemma OriginalIsClosest(dps: seq<DistPoint>, k: nat, m: nat)
    requires AscendingDistance(dps)
    requires k < |dps| && m < |dps| && !Flagged(dps)[k].dup && dps[m].point2 == dps[k].point2
    ensures dps[k].dist <= dps[m].dist
  {
  }

  // ---------------------------------------------------------------------
  // The histogram
  // ---------------------------------------------------------------------

  /** How many entries of `s` have reference point p. */
  function Occurrences(s: seq<DistPoint>, p: int): (r: nat)
    ensures r <= |s|
  {
    if s == [] then 0
    else Occurrences(s[..|s| - 1], p) + (if s[|s| - 1].point2 == p then 1 else 0)
  }

  /** The histogram is positive exactly where the reference point occurs. */
  lemma {:induction false} OccurrencesPositive(s: seq<DistPoint>, p: int)
    ensures Occurrences(s, p) > 0 <==> exists j :: 0 <= j < |s| && s[j].point2 == p
  {
    if s != [] {
      var init := s[..|s| - 1];
      OccurrencesPositive(init, p);
      if exists j :: 0 <= j < |init| && init[j].point2 == p {
        var j :| 0 <= j < |init| && init[j].point2 == p;
        assert s[j].point2 == p;
      }
      if exists j :: 0 <= j < |s| && s[j].point2 == p {
        var j :| 0 <= j < |s| && s[j].point2 == p;
        if j < |init| {
          assert init[j].point2 == p;
        }
      }
    }
  }

  predicate ReferencesInRange(dps: seq<DistPoint>, n2: nat) {
    forall k :: 0 <= k < |dps| ==> 0 <= dps[k].point2 < n2
  }

  /** The marking loop: a histogram of the reference points seen so far,
      indexed by point2, decides the duplicate flag of each entry; the
      distance decides the match flag. */
  method MarkDuplicates(a: array<DistPoint>, n2: nat)
    requires ReferencesInRange(a[..], n2)
    modifies a
    ensures a[..] == Flagged(old(a[..]))
  {
    ghost var orig := a[..];
    var dupCount := new int[n2](_ => 0);
    var i := 0;
    while i < a.Length
      invariant 0 <= i <= a.Length
      invariant forall k :: 0 <= k < i ==> a[k] == Flagged(orig)[k]
      invariant forall k :: i <= k < a.Length ==> a[k] == orig[k]
      invariant forall p :: 0 <= p < n2 ==> dupCount[p] == Occurrences(orig[..i], p)
    {
      var p := a[i].point2;
      SeenIffCounted(orig, i);
      HistogramStep(orig, i);
      var d := MarkOne(a[i], dupCount[p] > 0);
      dupCount[p] := dupCount[p] + 1;
      a[i] := d;
      i := i + 1;
    }
    assert a[..] == Flagged(orig);
  }

  /** The body of the marking loop for one entry, given whether its
      reference point was counted before. */
  method MarkOne(d0: DistPoint, seen: bool) returns (d: DistPoint)
    ensures d == d0.(dup := seen, isMatch := MatchFlag(d0.dist))
  {
    d := d0;
    if seen {
      d := d.(dup := true);
    } else {
      d := d.(dup := false);
    }
    if d.dist < MATCH_THRESHOLD {
      d := d.(isMatch := 1);
    } else {
      d := d.(isMatch := 0);
    }
  }

  /** The histogram entry of an entry's reference point is positive
      exactly when that point occurs before it. */
  lemma SeenIffCounted(dps: seq<DistPoint>, i: nat)
    requires i < |dps|
    ensures SeenBefore(dps, i) <==> Occurrences(dps[..i], dps[i].point2) > 0
  {
    var p := dps[i].point2;
    OccurrencesPositive(dps[..i], p);
    assert SeenBefore(dps, i) <==> exists j :: 0 <= j < i && dps[..i][j].point2 == p;
  }

  /** Counting one more entry adds one to its own reference point only. */
  lemma HistogramStep(dps: seq<DistPoint>, i: nat)
    requires i < |dps|
    ensures forall p :: Occurrences(dps[..i + 1], p) == Occurrences(dps[..i], p) + (if dps[i].point2 == p then 1 else 0)
  {
    assert dps[..i + 1][..i] == dps[..i];
  }

  /** findNearestNeighbors for n1 new points and n2 reference points, with
      the matching kernel's output `kernelOut`.  Either set empty: nothing
      is dispatched and the result is empty.  Otherwise one launch of 64
      work items per new point, then the kernel's n1 correspondences,
      sorted by distance and flagged. */
  method FindNearestNeighbors(n1: nat, n2: nat, kernelOut: seq<DistPoint>)
    returns (dps: seq<DistPoint>, launches: seq<Launch>)
    requires n1 > 0 && n2 > 0 ==> |kernelOut| == n1 && ReferencesInRange(kernelOut, n2)
    ensures n1 == 0 || n2 == 0 ==> dps == [] && launches == []
    ensures n1 > 0 && n2 > 0 ==>
              && launches == [Launch("NearestNeighbor", [n1 * 64], [64], 0, [])]
              && |dps| == n1
              && dps == Flagged(SortByDistance(kernelOut))
  {
    if n1 == 0 || n2 == 0 {
      return [], [];
    }
    launches := [Launch("NearestNeighbor", [n1 * 64], [64], 0, [])];
    var a := new DistPoint[n1](k requires 0 <= k < n1 => kernelOut[k]);
    assert a[..] == kernelOut;
    var sorted := SortByDistance(a[..]);
    forall k | 0 <= k < a.Length {
      a[k] := sorted[k];
    }
    assert a[..] == sorted;
    assert ReferencesInRange(a[..], n2) by {
      forall k | 0 <= k < |sorted| ensures 0 <= sorted[k].point2 < n2 {
        assert sorted[k] in multiset(kernelOut);
      }
    }
    MarkDuplicates(a, n2);
    dps := a[..];
  }

  // ---------------------------------------------------------------------
  // The result as a whole
  // ---------------------------------------------------------------------

  function UnflagAll(s: seq<DistPoint>): (r: seq<DistPoint>)
    ensures |r| == |s|
  {
    Sorting.Map(Unflagged, s)
  }

  /** The result is the kernel's output reordered by increasing distance,
      flags aside, with one non-duplicate entry per reference point. */
  lemma ResultIsFlaggedPermutation(kernelOut: seq<DistPoint>)
    ensures var r := Flagged(SortByDistance(kernelOut));
            && multiset(UnflagAll(r)) == multiset(UnflagAll(kernelOut))
            && AscendingDistance(r)
  {
    var sorted := SortByDistance(kernelOut);
    var r := Flagged(sorted);
    SortByDistanceAscending(kernelOut);
    forall k | 0 <= k < |r| ensures UnflagAll(r)[k] == UnflagAll(sorted)[k] {
      Sorting.MapAt(Unflagged, r, k);
      Sorting.MapAt(Unflagged, sorted, k);
    }
    assert UnflagAll(r) == UnflagAll(sorted);
    Sorting.MapSort(DistLe, DistLe, Unflagged, kernelOut);
  }
}
