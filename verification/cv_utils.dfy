/** The host-side geometry and point-set helpers of the stabilisation demo
    (surf_src/cvutils.cpp): distances and the reference distance table,
    the median, the filter that keeps the useful correspondences, the
    rotation, scale and translation estimates built from medians, the crop
    rectangle of the shifted frame, the merge of two point lists, and the
    token layout of the point log.  Floats are reals; the C library's
    sqrt, cos, sin, atan and float division are parameters. */
module CvUtils {
  import opened Common
  import opened Features
  import Sorting

  /** The C library functions the helpers call, and float division (which
      the model does not otherwise interpret, so that a zero divisor needs
      no precondition). */
  datatype Libm = Libm(sqrt: real -> real, cos: real -> real, sin: real -> real,
                       atan: real -> real, div: (real, real) -> real)

  /** CV_PI */
  const PI: real := 3.1415926535897932384626433832795
  const TWO_PI: real := 2.0 * PI

  // ---------------------------------------------------------------------
  // Distances
  // ---------------------------------------------------------------------

  /** euclideanDist(x1, y1, x2, y2). */
  function EuclideanDist(lib: Libm, x1: real, y1: real, x2: real, y2: real): real {
    lib.sqrt((x2 - x1) * (x2 - x1) + (y2 - y1) * (y2 - y1))
  }

  /** euclideanDist of a correspondence: how far its point moved between
      the frames. */
  function Displacement(lib: Libm, d: DistPoint): real {
    EuclideanDist(lib, d.x1, d.y1, d.x2, d.y2)
  }

  /** A square root as the C library's: zero at zero, never negative. */
  ghost predicate SqrtLike(lib: Libm) {
    lib.sqrt(0.0) == 0.0 && forall x: real :: x >= 0.0 ==> lib.sqrt(x) >= 0.0
  }

  /** The distance is symmetric whatever the square root, zero from a point
      to itself and never negative when the square root behaves as one. */
  lemma EuclideanDistFacts(lib: Libm, x1: real, y1: real, x2: real, y2: real)
    ensures EuclideanDist(lib, x1, y1, x2, y2) == EuclideanDist(lib, x2, y2, x1, y1)
    ensures SqrtLike(lib) ==> EuclideanDist(lib, x1, y1, x1, y1) == 0.0
    ensures SqrtLike(lib) ==> EuclideanDist(lib, x1, y1, x2, y2) >= 0.0
  {
    assert (x2 - x1) * (x2 - x1) == (x1 - x2) * (x1 - x2);
    assert (y2 - y1) * (y2 - y1) == (y1 - y2) * (y1 - y2);
    assert (x2 - x1) * (x2 - x1) >= 0.0 && (y2 - y1) * (y2 - y1) >= 0.0;
    assert (x1 - x1) * (x1 - x1) + (y1 - y1) * (y1 - y1) == 0.0;
  }

  /** The distance between points i and j of `pts`. */
  function PointDist(lib: Libm, pts: seq<Ipoint>, i: nat, j: nat): real
    requires i < |pts| && j < |pts|
  {
    EuclideanDist(lib, pts[i].x, pts[i].y, pts[j].x, pts[j].y)
  }

  /** computeDistanceTable: the n x n table of distances between the
      reference points. */
  method ComputeDistanceTable(lib: Libm, pts: seq<Ipoint>) returns (t: array2<real>)
    ensures fresh(t) && t.Length0 == |pts| && t.Length1 == |pts|
    ensures forall i, j :: 0 <= i < |pts| && 0 <= j < |pts| ==> t[i, j] == PointDist(lib, pts, i, j)
  {
    t := new real[|pts|, |pts|];
    var i := 0;
    while i < |pts|
      invariant 0 <= i <= |pts|
      invariant forall r, c :: 0 <= r < i && 0 <= c < |pts| ==> t[r, c] == PointDist(lib, pts, r, c)
    {
      FillRow(lib, pts, t, i);
      i := i + 1;
    }
  }

  method FillRow(lib: Libm, pts: seq<Ipoint>, t: array2<real>, i: nat)
    requires i < |pts| && t.Length0 == |pts| && t.Length1 == |pts|
    modifies t
    ensures forall c :: 0 <= c < |pts| ==> t[i, c] == PointDist(lib, pts, i, c)
    ensures forall r, c :: 0 <= r < |pts| && r != i && 0 <= c < |pts| ==> t[r, c] == old(t[r, c])
  {
    var myX := pts[i].x;
    var myY := pts[i].y;
    var j := 0;
    while j < |pts|
      invariant 0 <= j <= |pts|
      invariant forall c :: 0 <= c < j ==> t[i, c] == PointDist(lib, pts, i, c)
      invariant forall r, c :: 0 <= r < |pts| && r != i && 0 <= c < |pts| ==> t[r, c] == old(t[r, c])
    {
      t[i, j] := EuclideanDist(lib, myX, myY, pts[j].x, pts[j].y);
      j := j + 1;
    }
  }

  /** The table is symmetric, has a zero diagonal and, for a square root
      that behaves as one, no negative entry. */
  lemma DistanceTableFacts(lib: Libm, pts: seq<Ipoint>, i: nat, j: nat)
    requires i < |pts| && j < |pts|
    ensures PointDist(lib, pts, i, j) == PointDist(lib, pts, j, i)
    ensures SqrtLike(lib) ==> PointDist(lib, pts, i, i) == 0.0 && PointDist(lib, pts, i, j) >= 0.0
  {
    EuclideanDistFacts(lib, pts[i].x, pts[i].y, pts[j].x, pts[j].y);
  }

  // ---------------------------------------------------------------------
  // median
  // ---------------------------------------------------------------------

  function RealLe(a: real, b: real): bool {
    a <= b
  }

  /** median: None for an empty vector (the program exits); otherwise the
      element at position n / 2 of a sorted copy, the upper middle one for
      an even count. */
  function Median(v: seq<real>): (r: Option<real>)
    ensures r.Some? <==> |v| > 0
  {
    if |v| == 0 then None else Some(Sorting.Sort(RealLe, v)[|v| / 2])
  }

  lemma MedianIsElement(v: seq<real>)
    requires |v| > 0
    ensures Median(v).value in v
  {
    var sorted := Sorting.Sort(RealLe, v);
    assert sorted[|v| / 2] in multiset(sorted);
  }

  /** Of a vector already in order the median is the element at n / 2. */
  lemma MedianOfSorted(v: seq<real>)
    requires |v| > 0
    requires forall i, j :: 0 <= i < j < |v| ==> v[i] <= v[j]
    ensures Median(v) == Some(v[|v| / 2])
  {
    Sorting.SortOfSorted(RealLe, v);
  }

  /** At least half of the elements, counting the median, are no greater
      than it and at least half are no smaller. */
  lemma MedianSplits(v: seq<real>)
    requires |v| > 0
    ensures var s := Sorting.Sort(RealLe, v);
            multiset(s) == multiset(v)
            && (forall k :: 0 <= k <= |v| / 2 ==> s[k] <= Median(v).value)
            && (forall k :: |v| / 2 <= k < |v| ==> Median(v).value <= s[k])
  {
    RealLeTotalPreorder();
    Sorting.SortSorted(RealLe, v);
    var s := Sorting.Sort(RealLe, v);
    var m := |v| / 2;
    assert Median(v).value == s[m];
    forall k | 0 <= k <= m ensures s[k] <= s[m] {
      if k < m {
        assert RealLe(s[k], s[m]);
      }
    }
    forall k | m <= k < |v| ensures s[m] <= s[k] {
      if m < k {
        assert RealLe(s[m], s[k]);
      }
    }
  }

  lemma RealLeTotalPreorder()
    ensures Sorting.TotalPreorder(RealLe)
  {
  }

  lemma MedianExamples()
    ensures Median([1.0, 2.0, 3.0]) == Some(2.0)
    ensures Median([1.0, 2.0, 3.0, 4.0]) == Some(3.0)
  {
    MedianOfSorted([1.0, 2.0, 3.0]);
    MedianOfSorted([1.0, 2.0, 3.0, 4.0]);
  }

  // ---------------------------------------------------------------------
  // The useful correspondences (drawImages)
  // ---------------------------------------------------------------------

  /** A correspondence is used for the estimates when its point moved no
      more than the shake threshold, it is not a duplicate and it is a
      match. */
  predicate Useful(lib: Libm, shakeThreshold: real, d: DistPoint) {
    Displacement(lib, d) <= shakeThreshold && !d.dup && d.isMatch != 0
  }

  /** The useful correspondences, in input order. */
  function UsefulPairs(lib: Libm, shakeThreshold: real, dps: seq<DistPoint>): (r: seq<DistPoint>)
    ensures |r| <= |dps|
  {
    if dps == [] then []
    else
      var last := dps[|dps| - 1];
      UsefulPairs(lib, shakeThreshold, dps[..|dps| - 1]) + (if Useful(lib, shakeThreshold, last) then [last] else [])
  }

  /** The filter keeps exactly the useful correspondences: everything kept
      is useful and every useful one is kept. */
  lemma {:induction false} UsefulPairsExact(lib: Libm, shakeThreshold: real, dps: seq<DistPoint>)
    ensures forall d :: d in UsefulPairs(lib, shakeThreshold, dps) ==> Useful(lib, shakeThreshold, d) && d in dps
    ensures forall k :: 0 <= k < |dps| && Useful(lib, shakeThreshold, dps[k]) ==>
              dps[k] in UsefulPairs(lib, shakeThreshold, dps)
  {
    if dps != [] {
      var init := dps[..|dps| - 1];
      UsefulPairsExact(lib, shakeThreshold, init);
      forall k | 0 <= k < |dps| - 1
        ensures dps[k] == init[k]
      {
      }
    }
  }

  /** The positions of the useful correspondences, ascending. */
  function UsefulIndices(lib: Libm, shakeThreshold: real, dps: seq<DistPoint>): (r: seq<nat>)
    ensures forall k :: 0 <= k < |r| ==> r[k] < |dps| && Useful(lib, shakeThreshold, dps[r[k]])
    ensures forall k, l :: 0 <= k < l < |r| ==> r[k] < r[l]
  {
    if dps == [] then []
    else
      var n := |dps| - 1;
      UsefulIndices(lib, shakeThreshold, dps[..n]) + (if Useful(lib, shakeThreshold, dps[n]) then [n] else [])
  }

  /** The filter keeps the input order: the useful correspondences are the
      input's entries at strictly increasing positions. */
  lemma {:induction false} UsefulPairsInOrder(lib: Libm, shakeThreshold: real, dps: seq<DistPoint>)
    ensures var idx := UsefulIndices(lib, shakeThreshold, dps);
            var r := UsefulPairs(lib, shakeThreshold, dps);
            |r| == |idx| && forall k :: 0 <= k < |r| ==> r[k] == dps[idx[k]]
  {
    if dps != [] {
      var n := |dps| - 1;
      UsefulPairsInOrder(lib, shakeThreshold, dps[..n]);
      var idx := UsefulIndices(lib, shakeThreshold, dps[..n]);
      assert forall k :: 0 <= k < |idx| ==> dps[..n][idx[k]] == dps[idx[k]];
    }
  }

  /** The useful correspondences name only points the table covers. */
  lemma UsefulPairsCovered(lib: Libm, shakeThreshold: real, dps: seq<DistPoint>, distTable: array2<real>)
    requires TableCovers(dps, distTable)
    ensures TableCovers(UsefulPairs(lib, shakeThreshold, dps), distTable)
  {
    UsefulPairsInOrder(lib, shakeThreshold, dps);
  }

  /** The filter loop of drawImages. */
  method SelectUsefulPairs(lib: Libm, shakeThreshold: real, dps: seq<DistPoint>) returns (useful: seq<DistPoint>)
    ensures useful == UsefulPairs(lib, shakeThreshold, dps)
  {
    useful := [];
    var i := 0;
    while i < |dps|
      invariant 0 <= i <= |dps|
      invariant useful == UsefulPairs(lib, shakeThreshold, dps[..i])
    {
      var dp := dps[i];
      assert dps[..i + 1][..i] == dps[..i];
      if Displacement(lib, dp) > shakeThreshold {
      } else if dp.dup {
      } else if dp.isMatch == 0 {
      } else {
        useful := useful + [dp];
      }
      i := i + 1;
    }
    assert dps[..|dps|] == dps;
  }

  // ---------------------------------------------------------------------
  // getRotation
  // ---------------------------------------------------------------------

  /** The angle in (-PI, PI] that differs from `a` by whole turns. */
  function NormalizedAngle(a: real): real {
    a + TWO_PI * (((PI - a) / TWO_PI).Floor as real)
  }

  lemma NormalizedAngleInRange(a: real)
    ensures -PI < NormalizedAngle(a) <= PI
  {
    var x := (PI - a) / TWO_PI;
    var f := x.Floor;
    assert f as real <= x < f as real + 1.0;
    assert TWO_PI * f as real <= PI - a < TWO_PI * f as real + TWO_PI;
  }

  /** Two angles in (-PI, PI] a whole number of turns apart are equal. */
  lemma SameTurnUnique(r: real, s: real, k: int)
    requires -PI < r <= PI && -PI < s <= PI && r - s == TWO_PI * k as real
    ensures r == s
  {
    if k >= 1 {
      ScaleMonotone(TWO_PI, 1.0, k as real);
    } else if k <= -1 {
      ScaleMonotone(TWO_PI, k as real, -1.0);
    }
  }

  lemma ScaleMonotone(c: real, x: real, y: real)
    requires c >= 0.0 && x <= y
    ensures c * x <= c * y
  {
    assert c * y - c * x == c * (y - x);
  }

  /** The two loops of getRotation that bring an orientation difference
      into (-PI, PI]. */
  method AdjustOrientation(a: real) returns (r: real)
    ensures r == NormalizedAngle(a)
  {
    r := a;
    ghost var k: int := 0;
    while r <= -PI
      invariant r == a + TWO_PI * k as real
      decreases if r <= -PI then ((-PI - r) / TWO_PI).Floor + 1 else 0
    {
      r := r + TWO_PI;
      k := k + 1;
    }
    while r > PI
      invariant r == a + TWO_PI * k as real
      invariant r > -PI
      decreases if r > PI then ((r - PI) / TWO_PI).Floor + 1 else 0
    {
      r := r - TWO_PI;
      k := k - 1;
    }
    NormalizedAngleInRange(a);
    SameTurnUnique(r, NormalizedAngle(a), k - ((PI - a) / TWO_PI).Floor);
  }

  function Degrees(radians: real): real {
    radians * 180.0 / PI
  }

  function RawOrientations(dps: seq<DistPoint>): (r: seq<real>)
    ensures |r| == |dps| && forall k :: 0 <= k < |dps| ==> r[k] == dps[k].orientationDiff
  {
    seq(|dps|, k requires 0 <= k < |dps| => dps[k].orientationDiff)
  }

  function NormalizedOrientations(dps: seq<DistPoint>): (r: seq<real>)
    ensures |r| == |dps| && forall k :: 0 <= k < |dps| ==> r[k] == NormalizedAngle(dps[k].orientationDiff)
  {
    seq(|dps|, k requires 0 <= k < |dps| => NormalizedAngle(dps[k].orientationDiff))
  }

  /** getRotation as written: each difference is normalised into a local
      that is then dropped, and the raw differences go into the median. */
  method GetRotationAsWritten(dps: seq<DistPoint>) returns (r: Option<real>)
    ensures r.Some? <==> |dps| > 0
    ensures r.Some? ==> r.value == Degrees(Median(RawOrientations(dps)).value)
  {
    var orientations: seq<real> := [];
    var i := 0;
    while i < |dps|
      invariant 0 <= i <= |dps|
      invariant orientations == RawOrientations(dps[..i])
    {
      var adjusted := AdjustOrientation(dps[i].orientationDiff);
      orientations := orientations + [dps[i].orientationDiff];
      i := i + 1;
    }
    assert dps[..|dps|] == dps;
    var m := Median(orientations);
    if m.None? {
      return None;
    }
    return Some(Degrees(m.value));
  }

  /** A single correspondence whose orientation differs by 4 radians (more
      than half a turn) gives a rotation of more than 180 degrees. */
  lemma GetRotationAsWrittenOutOfRange(d: DistPoint)
    requires d.orientationDiff == 4.0
    ensures Median(RawOrientations([d])) == Some(4.0)
    ensures Degrees(4.0) > 180.0
  {
    MedianOfSorted([4.0]);
    assert RawOrientations([d]) == [4.0];
  }

  /** getRotation with the normalised differences in the median: the
      rotation in degrees lies in (-180, 180]. */
  method GetRotation(dps: seq<DistPoint>) returns (r: Option<real>)
    ensures r.Some? <==> |dps| > 0
    ensures r.Some? ==> r.value == Degrees(Median(NormalizedOrientations(dps)).value)
    ensures r.Some? ==> -180.0 < r.value <= 180.0
  {
    var orientations: seq<real> := [];
    var i := 0;
    while i < |dps|
      invariant 0 <= i <= |dps|
      invariant orientations == NormalizedOrientations(dps[..i])
    {
      var adjusted := AdjustOrientation(dps[i].orientationDiff);
      orientations := orientations + [adjusted];
      i := i + 1;
    }
    assert dps[..|dps|] == dps;
    var m := Median(orientations);
    if m.None? {
      return None;
    }
    MedianIsElement(orientations);
    var k :| 0 <= k < |orientations| && orientations[k] == m.value;
    NormalizedAngleInRange(dps[k].orientationDiff);
    DegreesInRange(m.value);
    return Some(Degrees(m.value));
  }

  lemma DegreesInRange(a: real)
    requires -PI < a <= PI
    ensures -180.0 < Degrees(a) <= 180.0
  {
    assert a * 180.0 <= PI * 180.0;
    assert a * 180.0 > -PI * 180.0;
  }

  // ---------------------------------------------------------------------
  // getScalingFactor
  // ---------------------------------------------------------------------

  /** The point (x, y) turned by -rotation degrees about the image centre
      (cx, cy). */
  function Rotated(lib: Libm, x: real, y: real, cx: real, cy: real, rotation: real): (real, real) {
    var theta := -1.0 * rotation * (PI / 180.0);
    var dx := x - cx;
    var dy := y - cy;
    (dx * lib.cos(theta) - dy * lib.sin(theta) + cx, dx * lib.sin(theta) + dy * lib.cos(theta) + cy)
  }

  /** Every reference index of the correspondences is a row and a column of
      the distance table. */
  predicate TableCovers(dps: seq<DistPoint>, distTable: array2<real>)
    reads {}
  {
    forall k :: 0 <= k < |dps| ==> 0 <= dps[k].point2 < distTable.Length0 && dps[k].point2 < distTable.Length1
  }

  /** The pairs (i, j), j < i < n, in the order getScalingFactor visits
      them: i upwards, and for each i, j downwards from i - 1. */
  function Pairs(n: nat): (r: seq<(nat, nat)>)
    ensures forall k :: 0 <= k < |r| ==> r[k].1 < r[k].0 < n
    ensures |r| >= n - 1
  {
    if n == 0 then [] else Pairs(n - 1) + PairRow(n - 1)
  }

  function PairRow(i: nat): (r: seq<(nat, nat)>)
    ensures |r| == i && forall t :: 0 <= t < i ==> r[t] == (i, i - 1 - t)
  {
    seq(i, t requires 0 <= t < i => (i, i - 1 - t))
  }

  /** There are n (n - 1) / 2 pairs. */
  lemma {:induction false} PairsCount(n: nat)
    ensures 2 * |Pairs(n)| == n * (n - 1)
  {
    if n > 0 {
      PairsCount(n - 1);
      assert n * (n - 1) == (n - 1) * (n - 2) + 2 * (n - 1);
    }
  }

  /** Each pair (i, j), j < i < n, is visited, at position
      |Pairs(i)| + (i - 1 - j); with PairsCount, every pair exactly once. */
  lemma {:induction false} PairsAt(n: nat, i: nat, j: nat)
    requires j < i < n
    ensures |Pairs(i)| + (i - 1 - j) < |Pairs(n)|
    ensures Pairs(n)[|Pairs(i)| + (i - 1 - j)] == (i, j)
  {
    if i < n - 1 {
      PairsAt(n - 1, i, j);
    } else {
      assert Pairs(n) == Pairs(i) + PairRow(i);
    }
  }

  /** The ratio pushed for the pair (i, j): the distance between the two
      new points after the rotation over the table distance between their
      reference points. */
  function PairRatio(lib: Libm, dps: seq<DistPoint>, distTable: array2<real>, rotation: real,
                     cx: real, cy: real, pair: (nat, nat)): real
    requires pair.1 < pair.0 < |dps| && TableCovers(dps, distTable)
    reads distTable
  {
    var dp := dps[pair.0];
    var other := dps[pair.1];
    var p := Rotated(lib, dp.x1, dp.y1, cx, cy, rotation);
    var q := Rotated(lib, other.x1, other.y1, cx, cy, rotation);
    lib.div(EuclideanDist(lib, p.0, p.1, q.0, q.1), distTable[dp.point2, other.point2])
  }

  function Ratios(lib: Libm, dps: seq<DistPoint>, distTable: array2<real>, rotation: real,
                  cx: real, cy: real, pairs: seq<(nat, nat)>): (r: seq<real>)
    requires forall k :: 0 <= k < |pairs| ==> pairs[k].1 < pairs[k].0 < |dps|
    requires TableCovers(dps, distTable)
    reads distTable
    ensures |r| == |pairs|
  {
    seq(|pairs|, k requires 0 <= k < |pairs| reads distTable =>
      PairRatio(lib, dps, distTable, rotation, cx, cy, pairs[k]))
  }

  /** The ratios of two runs of pairs, one after the other. */
  lemma RatiosAppend(lib: Libm, dps: seq<DistPoint>, distTable: array2<real>, rotation: real,
                     cx: real, cy: real, p1: seq<(nat, nat)>, p2: seq<(nat, nat)>)
    requires forall k :: 0 <= k < |p1| ==> p1[k].1 < p1[k].0 < |dps|
    requires forall k :: 0 <= k < |p2| ==> p2[k].1 < p2[k].0 < |dps|
    requires TableCovers(dps, distTable)
    ensures Ratios(lib, dps, distTable, rotation, cx, cy, p1 + p2)
            == Ratios(lib, dps, distTable, rotation, cx, cy, p1) + Ratios(lib, dps, distTable, rotation, cx, cy, p2)
  {
    var all := p1 + p2;
    assert forall k :: 0 <= k < |all| ==> all[k].1 < all[k].0 < |dps|;
  }

  /** The inner loop of getScalingFactor for the correspondence i. */
  method PushRowRatios(lib: Libm, dps: seq<DistPoint>, distTable: array2<real>, rotation: real,
                       cx: real, cy: real, i: nat, scales: seq<real>) returns (r: seq<real>)
    requires i < |dps| && TableCovers(dps, distTable)
    ensures r == scales + Ratios(lib, dps, distTable, rotation, cx, cy, PairRow(i))
  {
    var dp := dps[i];
    var p := Rotated(lib, dp.x1, dp.y1, cx, cy, rotation);
    r := scales;
    var j := i - 1;
    while j >= 0
      invariant -1 <= j <= i - 1
      invariant r == scales + Ratios(lib, dps, distTable, rotation, cx, cy, PairRow(i)[..i - 1 - j])
    {
      var other := dps[j];
      var q := Rotated(lib, other.x1, other.y1, cx, cy, rotation);
      var oldDist := distTable[dp.point2, other.point2];
      var newDist := EuclideanDist(lib, p.0, p.1, q.0, q.1);
      ghost var done := PairRow(i)[..i - 1 - j];
      assert PairRow(i)[..i - j] == done + [(i, j)];
      r := r + [lib.div(newDist, oldDist)];
      assert Ratios(lib, dps, distTable, rotation, cx, cy, done + [(i, j)])
          == Ratios(lib, dps, distTable, rotation, cx, cy, done) + [lib.div(newDist, oldDist)];
      j := j - 1;
    }
    assert PairRow(i)[..i] == PairRow(i);
  }

  /** getScalingFactor: one ratio per pair of useful correspondences, then
      their median. */
  method GetScalingFactor(lib: Libm, dps: seq<DistPoint>, distTable: array2<real>, rotation: real,
                          cx: real, cy: real) returns (r: Option<real>, scales: seq<real>)
    requires TableCovers(dps, distTable)
    ensures scales == Ratios(lib, dps, distTable, rotation, cx, cy, Pairs(|dps|))
    ensures 2 * |scales| == |dps| * (|dps| - 1)
    ensures r == Median(scales)
  {
    scales := [];
    var i := 0;
    while i < |dps|
      invariant 0 <= i <= |dps|
      invariant scales == Ratios(lib, dps, distTable, rotation, cx, cy, Pairs(i))
    {
      scales := PushRowRatios(lib, dps, distTable, rotation, cx, cy, i, scales);
      assert Pairs(i + 1) == Pairs(i) + PairRow(i);
      RatiosAppend(lib, dps, distTable, rotation, cx, cy, Pairs(i), PairRow(i));
      i := i + 1;
    }
    PairsCount(|dps|);
    r := Median(scales);
  }

  /** When every ratio is the same, that is the scale. */
  lemma MedianOfConstant(v: seq<real>, c: real)
    requires |v| > 0 && forall k :: 0 <= k < |v| ==> v[k] == c
    ensures Median(v) == Some(c)
  {
    MedianIsElement(v);
  }

  // ---------------------------------------------------------------------
  // getTranslation
  // ---------------------------------------------------------------------

  /** The shift getTranslation pushes for one correspondence: its new point
      rotated, brought back to the reference scale along the ray from the
      origin, and subtracted from the reference point. */
  function Shift(lib: Libm, d: DistPoint, scale: real, rotation: real, cx: real, cy: real): (real, real) {
    var p := Rotated(lib, d.x1, d.y1, cx, cy, rotation);
    var newDist := lib.div(EuclideanDist(lib, 0.0, 0.0, p.0, p.1), scale);
    var angle := lib.atan(lib.div(p.1, p.0));
    (d.x2 - lib.cos(angle) * newDist, d.y2 - lib.sin(angle) * newDist)
  }

  function ShiftXs(lib: Libm, dps: seq<DistPoint>, scale: real, rotation: real, cx: real, cy: real): (r: seq<real>)
    ensures |r| == |dps|
  {
    seq(|dps|, k requires 0 <= k < |dps| => Shift(lib, dps[k], scale, rotation, cx, cy).0)
  }

  function ShiftYs(lib: Libm, dps: seq<DistPoint>, scale: real, rotation: real, cx: real, cy: real): (r: seq<real>)
    ensures |r| == |dps|
  {
    seq(|dps|, k requires 0 <= k < |dps| => Shift(lib, dps[k], scale, rotation, cx, cy).1)
  }

  /** getTranslation: one x and one y shift per correspondence, and the
      median of each list on its own. */
  method GetTranslation(lib: Libm, dps: seq<DistPoint>, scale: real, rotation: real, cx: real, cy: real)
    returns (r: Option<(real, real)>)
    ensures r.Some? <==> |dps| > 0
    ensures r.Some? ==> r.value == (Median(ShiftXs(lib, dps, scale, rotation, cx, cy)).value,
                                    Median(ShiftYs(lib, dps, scale, rotation, cx, cy)).value)
  {
    var shiftX: seq<real> := [];
    var shiftY: seq<real> := [];
    var i := 0;
    while i < |dps|
      invariant 0 <= i <= |dps|
      invariant shiftX == ShiftXs(lib, dps[..i], scale, rotation, cx, cy)
      invariant shiftY == ShiftYs(lib, dps[..i], scale, rotation, cx, cy)
    {
      var s := Shift(lib, dps[i], scale, rotation, cx, cy);
      shiftX := shiftX + [s.0];
      shiftY := shiftY + [s.1];
      i := i + 1;
    }
    assert dps[..|dps|] == dps;
    if |dps| == 0 {
      return None;
    }
    return Some((Median(shiftX).value, Median(shiftY).value));
  }

  /** When every correspondence asks for the same shift, that is the
      translation. */
  lemma TranslationOfUniformShift(lib: Libm, dps: seq<DistPoint>, scale: real, rotation: real,
                                  cx: real, cy: real, sx: real, sy: real)
    requires |dps| > 0
    requires forall k :: 0 <= k < |dps| ==> Shift(lib, dps[k], scale, rotation, cx, cy) == (sx, sy)
    ensures Median(ShiftXs(lib, dps, scale, rotation, cx, cy)) == Some(sx)
    ensures Median(ShiftYs(lib, dps, scale, rotation, cx, cy)) == Some(sy)
  {
    MedianOfConstant(ShiftXs(lib, dps, scale, rotation, cx, cy), sx);
    MedianOfConstant(ShiftYs(lib, dps, scale, rotation, cx, cy), sy);
  }

  // ---------------------------------------------------------------------
  // The crop rectangle (drawImages)
  // ---------------------------------------------------------------------

  /** The region copied from the scaled frame (at srcX, srcY) into the
      output (at dstX, dstY). */
  datatype Crop = Crop(srcX: int, srcY: int, dstX: int, dstY: int, width: int, height: int)

  /** The frame is shifted back against the estimated shift: a shift
      towards negative x copies from |shift| into 0, a positive one from 0
      into |shift|; likewise for y.  The rectangle is as large as both
      images allow, one pixel short of either edge. */
  function CropRect(cols: int, rows: int, scaledCols: int, scaledRows: int, shiftX: real, shiftY: real): Crop {
    var srcX := if -1.0 * shiftX >= 0.0 then Abs(Trunc(shiftX)) else 0;
    var dstX := if -1.0 * shiftX >= 0.0 then 0 else Abs(Trunc(shiftX));
    var srcY := if -1.0 * shiftY >= 0.0 then Abs(Trunc(shiftY)) else 0;
    var dstY := if -1.0 * shiftY >= 0.0 then 0 else Abs(Trunc(shiftY));
    Crop(srcX, srcY, dstX, dstY,
         Min(cols - dstX - 1, scaledCols - srcX - 1),
         Min(rows - dstY - 1, scaledRows - srcY - 1))
  }

  /** The sanity check before the copy, which ends the program. */
  predicate BadDimensions(c: Crop, cols: int, rows: int, scaledCols: int, scaledRows: int) {
    c.dstX + c.width >= cols || c.dstY + c.height >= rows
    || c.srcX + c.width >= scaledCols || c.srcY + c.height >= scaledRows
  }

  /** The check can never fire: the rectangle always stops short of both
      images' edges, whatever the sizes and the shift. */
  lemma CropNeverBad(cols: int, rows: int, scaledCols: int, scaledRows: int, shiftX: real, shiftY: real)
    ensures !BadDimensions(CropRect(cols, rows, scaledCols, scaledRows, shiftX, shiftY), cols, rows, scaledCols, scaledRows)
  {
  }

  /** The offsets are never negative, at most one of each pair is non-zero,
      and their difference undoes the truncated shift. */
  lemma CropUndoesShift(cols: int, rows: int, scaledCols: int, scaledRows: int, shiftX: real, shiftY: real)
    ensures var c := CropRect(cols, rows, scaledCols, scaledRows, shiftX, shiftY);
            && c.srcX >= 0 && c.dstX >= 0 && c.srcY >= 0 && c.dstY >= 0
            && (c.srcX == 0 || c.dstX == 0) && (c.srcY == 0 || c.dstY == 0)
            && c.srcX - c.dstX == -Trunc(shiftX) && c.srcY - c.dstY == -Trunc(shiftY)
  {
  }

  // ---------------------------------------------------------------------
  // drawImages: the estimate behind the stabilised frame
  // ---------------------------------------------------------------------

  datatype Motion = Motion(rotation: real, scale: real, shiftX: real, shiftY: real,
                           scaledCols: int, scaledRows: int, crop: Crop)

  /** The estimate drawImages makes for a `cols` x `rows` frame: with
      fewer than two useful correspondences none; otherwise the corrected
      rotation of the useful pairs, and the rest as MotionUnder says. */
  function MotionEstimate(lib: Libm, cols: int, rows: int, dps: seq<DistPoint>, shakeThreshold: real,
                          distTable: array2<real>): Option<Motion>
    requires TableCovers(dps, distTable)
    reads distTable
  {
    var u := UsefulPairs(lib, shakeThreshold, dps);
    if |u| <= 1 then None
    else
      UsefulPairsCovered(lib, shakeThreshold, dps, distTable);
      Some(MotionUnder(lib, cols, rows, u, distTable, Degrees(Median(NormalizedOrientations(u)).value)))
  }

  /** The centre coordinate of a frame side, the rotation centre of the
      estimates. */
  function Center(n: int): real {
    n as real / 2.0
  }

  /** Under a rotation: the median pair ratio as the scale, then
      MotionScaled. */
  function MotionUnder(lib: Libm, cols: int, rows: int, u: seq<DistPoint>, distTable: array2<real>,
                       rotation: real): Motion
    requires |u| > 1 && TableCovers(u, distTable)
    reads distTable
  {
    var scale := Median(Ratios(lib, u, distTable, rotation, Center(cols), Center(rows), Pairs(|u|))).value;
    MotionScaled(lib, cols, rows, u, rotation, scale)
  }

  /** Under a rotation and a scale: the frame size divided by the scale,
      the medians of the x and y shifts, and the crop rectangle for that
      shift. */
  function MotionScaled(lib: Libm, cols: int, rows: int, u: seq<DistPoint>, rotation: real, scale: real): Motion
    requires |u| > 0
  {
    var cx := Center(cols);
    var cy := Center(rows);
    var scaledCols := Trunc(lib.div(cols as real, scale));
    var scaledRows := Trunc(lib.div(rows as real, scale));
    var shiftX := Median(ShiftXs(lib, u, scale, rotation, cx, cy)).value;
    var shiftY := Median(ShiftYs(lib, u, scale, rotation, cx, cy)).value;
    Motion(rotation, scale, shiftX, shiftY, scaledCols, scaledRows,
           CropRect(cols, rows, scaledCols, scaledRows, shiftX, shiftY))
  }

  /** The estimation steps of drawImages: they compute MotionEstimate, the
      rotation lies in (-180, 180], and the sanity check before the copy
      never ends the program. */
  method EstimateMotion(lib: Libm, cols: int, rows: int, dps: seq<DistPoint>, shakeThreshold: real,
                        distTable: array2<real>) returns (m: Option<Motion>)
    requires TableCovers(dps, distTable)
    ensures m == MotionEstimate(lib, cols, rows, dps, shakeThreshold, distTable)
    ensures m.None? <==> |UsefulPairs(lib, shakeThreshold, dps)| <= 1
    ensures m.Some? ==> -180.0 < m.value.rotation <= 180.0
    ensures m.Some? ==> m.value.crop == CropRect(cols, rows, m.value.scaledCols, m.value.scaledRows,
                                                 m.value.shiftX, m.value.shiftY)
    ensures m.Some? ==> !BadDimensions(m.value.crop, cols, rows, m.value.scaledCols, m.value.scaledRows)
  {
    var useful := SelectUsefulPairs(lib, shakeThreshold, dps);
    if |useful| <= 1 {
      return None;
    }
    UsefulPairsCovered(lib, shakeThreshold, dps, distTable);
    var cx := Center(cols);
    var cy := Center(rows);
    var rotation := GetRotation(useful);
    var scale, scales := GetScalingFactor(lib, useful, distTable, rotation.value, cx, cy);
    assert |useful| * (|useful| - 1) > 0;
    var scaledCols := Trunc(lib.div(cols as real, scale.value));
    var scaledRows := Trunc(lib.div(rows as real, scale.value));
    var shift := GetTranslation(lib, useful, scale.value, rotation.value, cx, cy);
    var crop := CropRect(cols, rows, scaledCols, scaledRows, shift.value.0, shift.value.1);
    CropNeverBad(cols, rows, scaledCols, scaledRows, shift.value.0, shift.value.1);
    m := Some(Motion(rotation.value, scale.value, shift.value.0, shift.value.1, scaledCols, scaledRows, crop));
  }

  // ---------------------------------------------------------------------
  // mergeIpts
  // ---------------------------------------------------------------------

  /** The new-frame indices mergeIpts deletes, in the order it collects
      them: point1 of every correspondence that is a duplicate or a match. */
  function DeletedPoints(dps: seq<DistPoint>): (r: seq<int>)
    ensures |r| <= |dps|
  {
    if dps == [] then []
    else
      var d := dps[|dps| - 1];
      DeletedPoints(dps[..|dps| - 1]) + (if d.dup || d.isMatch == 1 then [d.point1] else [])
  }

  /** Every deleted index comes from such a correspondence, and every such
      correspondence contributes its index. */
  lemma {:induction false} DeletedPointsExact(dps: seq<DistPoint>, x: int)
    ensures x in DeletedPoints(dps) <==>
            exists k :: 0 <= k < |dps| && (dps[k].dup || dps[k].isMatch == 1) && dps[k].point1 == x
  {
    if dps != [] {
      var init := dps[..|dps| - 1];
      DeletedPointsExact(init, x);
      if exists k :: 0 <= k < |init| && (init[k].dup || init[k].isMatch == 1) && init[k].point1 == x {
        var k :| 0 <= k < |init| && (init[k].dup || init[k].isMatch == 1) && init[k].point1 == x;
        assert dps[k] == init[k];
      }
      if exists k :: 0 <= k < |dps| && (dps[k].dup || dps[k].isMatch == 1) && dps[k].point1 == x {
        var k :| 0 <= k < |dps| && (dps[k].dup || dps[k].isMatch == 1) && dps[k].point1 == x;
        if k < |init| {
          assert init[k] == dps[k];
        }
      }
    }
  }

  function Elems(s: seq<int>): set<int> {
    set x | x in s
  }

  /** `s` without the entries whose positions are in `del`, in order. */
  function Without<T>(s: seq<T>, del: set<int>): (r: seq<T>)
    ensures |r| <= |s|
  {
    if s == [] then []
    else Without(s[..|s| - 1], del) + (if |s| - 1 in del then [] else [s[|s| - 1]])
  }

  /** An element survives exactly when some position holding it is not
      deleted. */
  lemma {:induction false} WithoutMembers<T>(s: seq<T>, del: set<int>, x: T)
    ensures x in Without(s, del) <==> exists k :: 0 <= k < |s| && k !in del && s[k] == x
  {
    if s != [] {
      var init := s[..|s| - 1];
      WithoutMembers(init, del, x);
      if exists k :: 0 <= k < |init| && k !in del && init[k] == x {
        var k :| 0 <= k < |init| && k !in del && init[k] == x;
        assert s[k] == x;
      }
      if exists k :: 0 <= k < |s| && k !in del && s[k] == x {
        var k :| 0 <= k < |s| && k !in del && s[k] == x;
        if k < |init| {
          assert init[k] == x;
        }
      }
    }
  }

  /** Positions outside the sequence delete nothing. */
  lemma {:induction false} WithoutOutOfRange<T>(s: seq<T>, del: set<int>)
    requires forall d :: d in del ==> d < 0 || d >= |s|
    ensures Without(s, del) == s
  {
    if s != [] {
      WithoutOutOfRange(s[..|s| - 1], del);
      assert s[..|s| - 1] + [s[|s| - 1]] == s;
    }
  }

  /** Removing one more position, below all the others: the element at
      that position of the already shortened sequence goes. */
  lemma {:induction false} EraseStep<T>(s: seq<T>, del: set<int>, idx: nat)
    requires idx < |s| && idx !in del
    requires forall d :: d in del ==> d > idx
    ensures idx < |Without(s, del)|
    ensures Without(s, del + {idx}) == Without(s, del)[..idx] + Without(s, del)[idx + 1..]
  {
    var init := s[..|s| - 1];
    if idx == |s| - 1 {
      WithoutOutOfRange(init, del);
      WithoutOutOfRange(init, del + {idx});
    } else {
      EraseStep(init, del, idx);
      var w := Without(init, del);
      assert Without(s, del) == w + [s[|s| - 1]] || Without(s, del) == w;
    }
  }

  /** With the deleted positions all inside the sequence, exactly that many
      elements go. */
  lemma {:induction false} WithoutLength<T>(s: seq<T>, del: set<int>)
    requires forall d :: d in del ==> 0 <= d < |s|
    ensures |Without(s, del)| == |s| - |del|
  {
    if s != [] {
      var n := |s| - 1;
      var rest := del - {n};
      assert Without(s[..n], del) == Without(s[..n], rest) by {
        WithoutSameInRange(s[..n], del, rest);
      }
      WithoutLength(s[..n], rest);
      assert s[..n] == s[..|s| - 1];
      if n in del {
        assert del == rest + {n};
        assert Without(s, del) == Without(s[..n], del);
      } else {
        assert del == rest;
      }
    } else {
      assert forall d :: d !in del;
      assert del == {};
    }
  }

  /** Only the deleted positions inside the sequence matter. */
  lemma {:induction false} WithoutSameInRange<T>(s: seq<T>, a: set<int>, b: set<int>)
    requires forall d :: 0 <= d < |s| ==> (d in a <==> d in b)
    ensures Without(s, a) == Without(s, b)
  {
    if s != [] {
      WithoutSameInRange(s[..|s| - 1], a, b);
    }
  }

  function IntLe(a: int, b: int): bool {
    a <= b
  }

  /** Two positions of a sequence in which no value occurs twice hold
      different values. */
  lemma NoRepeatAt(s: seq<int>, a: nat, b: nat)
    requires forall x :: multiset(s)[x] <= 1
    requires a < b < |s|
    ensures s[a] != s[b]
  {
    var x := s[b];
    assert s == s[..b] + s[b..];
    assert multiset(s)[x] == multiset(s[..b])[x] + multiset(s[b..])[x];
    assert s[b..][0] == x;
    assert s[..b][a] == s[a];
  }

  /** The erase loop of mergeIpts: the positions, ascending, are erased
      from the last to the first, so each erase still finds its element at
      its original position. */
  method EraseFromBack<T>(s: seq<T>, idxs: seq<int>) returns (r: seq<T>)
    requires forall k :: 0 <= k < |idxs| ==> 0 <= idxs[k] < |s|
    requires forall a, b :: 0 <= a < b < |idxs| ==> idxs[a] < idxs[b]
    ensures r == Without(s, Elems(idxs))
  {
    r := s;
    var j := |idxs| - 1;
    assert Elems(idxs[j + 1..]) == {};
    WithoutOutOfRange(s, {});
    while j >= 0
      invariant -1 <= j < |idxs|
      invariant r == Without(s, Elems(idxs[j + 1..]))
    {
      var idx := idxs[j];
      var later := idxs[j + 1..];
      assert forall d :: d in Elems(later) ==> d > idx;
      EraseStep(s, Elems(later), idx);
      assert idxs[j..] == [idx] + later;
      assert Elems(idxs[j..]) == Elems(later) + {idx};
      r := r[..idx] + r[idx + 1..];
      j := j - 1;
    }
    assert idxs[0..] == idxs;
  }

  /** The first loop of mergeIpts. */
  method CollectDeleted(dps: seq<DistPoint>) returns (deleteList: seq<int>)
    ensures deleteList == DeletedPoints(dps)
  {
    deleteList := [];
    var i := 0;
    while i < |dps|
      invariant 0 <= i <= |dps|
      invariant deleteList == DeletedPoints(dps[..i])
    {
      assert dps[..i + 1][..i] == dps[..i];
      if dps[i].dup || dps[i].isMatch == 1 {
        deleteList := deleteList + [dps[i].point1];
      }
      i := i + 1;
    }
    assert dps[..|dps|] == dps;
  }

  /** Reordering keeps the elements and their bounds. */
  lemma PermutedIndices(ids: seq<int>, sorted: seq<int>, n: nat)
    requires multiset(sorted) == multiset(ids)
    requires forall k :: 0 <= k < |ids| ==> 0 <= ids[k] < n
    ensures Elems(sorted) == Elems(ids)
    ensures forall k :: 0 <= k < |sorted| ==> 0 <= sorted[k] < n
  {
    forall k | 0 <= k < |sorted| ensures 0 <= sorted[k] < n {
      assert sorted[k] in multiset(ids);
    }
    forall x ensures x in sorted <==> x in ids {
      assert x in sorted <==> x in multiset(sorted);
    }
  }

  /** Sorted indices, none repeated, ascend strictly. */
  lemma SortedIndicesAscend(sorted: seq<int>)
    requires Sorting.SortedBy(IntLe, sorted)
    requires forall x :: multiset(sorted)[x] <= 1
    ensures forall a, b :: 0 <= a < b < |sorted| ==> sorted[a] < sorted[b]
  {
    forall a, b | 0 <= a < b < |sorted| ensures sorted[a] < sorted[b] {
      NoRepeatAt(sorted, a, b);
    }
  }

  /** mergeIpts: the reference points, followed by the new points that are
      neither duplicates nor matches.  The caller's correspondences index
      the new points and name each of them at most once. */
  method MergeIpts(latest: seq<Ipoint>, prev: seq<Ipoint>, dps: seq<DistPoint>) returns (merged: seq<Ipoint>)
    requires forall k :: 0 <= k < |DeletedPoints(dps)| ==> 0 <= DeletedPoints(dps)[k] < |latest|
    requires forall x :: multiset(DeletedPoints(dps))[x] <= 1
    ensures merged == prev + Without(latest, Elems(DeletedPoints(dps)))
  {
    var deleteList := CollectDeleted(dps);
    var sorted := Sorting.Sort(IntLe, deleteList);
    Sorting.SortSorted(IntLe, deleteList);
    SortedIndicesAscend(sorted);
    PermutedIndices(deleteList, sorted, |latest|);
    var points := EraseFromBack(latest, sorted);
    merged := prev + points;
  }

  /** The merged list holds the reference points and then exactly the new
      points not deleted, |prev| + |latest| - (number deleted) in all. */
  lemma MergeContents(latest: seq<Ipoint>, prev: seq<Ipoint>, dps: seq<DistPoint>, p: Ipoint)
    requires forall k :: 0 <= k < |DeletedPoints(dps)| ==> 0 <= DeletedPoints(dps)[k] < |latest|
    ensures var merged := prev + Without(latest, Elems(DeletedPoints(dps)));
            && |merged| == |prev| + |latest| - |Elems(DeletedPoints(dps))|
            && merged[..|prev|] == prev
            && (p in merged[|prev|..] <==>
                exists k :: 0 <= k < |latest| && k !in DeletedPoints(dps) && latest[k] == p)
  {
    var del := Elems(DeletedPoints(dps));
    WithoutLength(latest, del);
    WithoutMembers(latest, del, p);
    assert (prev + Without(latest, del))[|prev|..] == Without(latest, del);
  }

  // ---------------------------------------------------------------------
  // The point log (writeIptsToFile and loadSurf)
  // ---------------------------------------------------------------------

  /** One whitespace-separated field of the log, as the stream operators
      write and read it: an integer, a decimal, or text that is not a
      number. */
  datatype Token = IntTok(i: int) | RealTok(r: real) | OtherTok

  /** Fields per point: scale, x, y, orientation, laplacian, scale again,
      and the descriptor. */
  const POINT_TOKENS: nat := 6 + DESC_SIZE

  function DescTokens(d: Descriptor): (r: seq<Token>)
    ensures |r| == DESC_SIZE
  {
    seq(DESC_SIZE, k requires 0 <= k < DESC_SIZE => RealTok(d[k]))
  }

  /** The line written for one point. */
  function PointTokens(p: Ipoint): (r: seq<Token>)
    ensures |r| == POINT_TOKENS
  {
    [RealTok(p.scale), RealTok(p.x), RealTok(p.y), RealTok(p.orientation), IntTok(p.laplacian), RealTok(p.scale)]
      + DescTokens(p.descriptor)
  }

  function PointsTokens(ipts: seq<Ipoint>): (r: seq<Token>)
    ensures |r| == POINT_TOKENS * |ipts|
  {
    if ipts == [] then [] else PointsTokens(ipts[..|ipts| - 1]) + PointTokens(ipts[|ipts| - 1])
  }

  /** The whole log: the descriptor length, the number of points, then one
      line per point. */
  function LogTokens(ipts: seq<Ipoint>): (r: seq<Token>)
    ensures |r| == 2 + POINT_TOKENS * |ipts|
  {
    [IntTok(DESC_SIZE), IntTok(|ipts|)] + PointsTokens(ipts)
  }

  /** The descriptor loop of writeIptsToFile. */
  method WriteDescriptor(out: seq<Token>, d: Descriptor) returns (r: seq<Token>)
    ensures r == out + DescTokens(d)
  {
    r := out;
    var j := 0;
    while j < DESC_SIZE
      invariant 0 <= j <= DESC_SIZE
      invariant r == out + DescTokens(d)[..j]
    {
      assert DescTokens(d)[..j + 1] == DescTokens(d)[..j] + [RealTok(d[j])];
      r := r + [RealTok(d[j])];
      j := j + 1;
    }
  }

  /** writeIptsToFile, field by field. */
  method WriteIptsToFile(ipts: seq<Ipoint>) returns (out: seq<Token>)
    ensures out == LogTokens(ipts)
  {
    out := [IntTok(DESC_SIZE), IntTok(|ipts|)];
    var i := 0;
    while i < |ipts|
      invariant 0 <= i <= |ipts|
      invariant out == [IntTok(DESC_SIZE), IntTok(|ipts|)] + PointsTokens(ipts[..i])
    {
      var p := ipts[i];
      out := out + [RealTok(p.scale), RealTok(p.x), RealTok(p.y), RealTok(p.orientation),
                    IntTok(p.laplacian), RealTok(p.scale)];
      out := WriteDescriptor(out, p.descriptor);
      assert ipts[..i + 1][..i] == ipts[..i];
      i := i + 1;
    }
    assert ipts[..|ipts|] == ipts;
  }

  // The reading side follows the stream operator >> of the C++ library:
  // a read skips to the next field; a read from a stream that has already
  // failed does nothing; a read at the end of the input fails and leaves
  // its target as it was; a field that is not a number fails and stores
  // zero; an integer outside int32 fails and stores the nearest bound.
  // The fields of the file, `ts`, are passed to every read beside the
  // stream's state.

  /** The state of an input stream over the log's fields: the next field
      and whether a read has failed. */
  datatype Stream = Stream(pos: nat, failed: bool)

  /** The stream after a read, and the value the target then holds. */
  datatype Read<T> = Read(s: Stream, v: T)

  /** The stream after the reads into a point, and the point. */
  datatype PointRead = PointRead(s: Stream, v: Ipoint)

  /** `>>` into a float that holds `v0`; an integer field reads as its
      value. */
  function ReadReal(ts: seq<Token>, s: Stream, v0: real): (r: Read<real>)
    ensures s.failed ==> r == Read(s, v0)
    ensures !r.s.failed ==> r.s.pos == s.pos + 1 && s.pos < |ts| && (ts[s.pos].IntTok? || ts[s.pos].RealTok?)
  {
    if s.failed then Read(s, v0)
    else if s.pos >= |ts| then Read(s.(failed := true), v0)
    else match ts[s.pos]
      case IntTok(i) => Read(s.(pos := s.pos + 1), i as real)
      case RealTok(x) => Read(s.(pos := s.pos + 1), x)
      case OtherTok => Read(s.(failed := true), 0.0)
  }

  /** `>>` into an int that holds `v0`. */
  function ReadInt(ts: seq<Token>, s: Stream, v0: int): (r: Read<int>)
    ensures s.failed ==> r == Read(s, v0)
    ensures !r.s.failed ==> r.s.pos == s.pos + 1 && s.pos < |ts| && ts[s.pos] == IntTok(r.v)
    ensures INT32_MIN <= v0 <= INT32_MAX ==> INT32_MIN <= r.v <= INT32_MAX
  {
    if s.failed then Read(s, v0)
    else if s.pos >= |ts| then Read(s.(failed := true), v0)
    else match ts[s.pos]
      case IntTok(i) =>
        if i > INT32_MAX then Read(s.(pos := s.pos + 1, failed := true), INT32_MAX)
        else if i < INT32_MIN then Read(s.(pos := s.pos + 1, failed := true), INT32_MIN)
        else Read(s.(pos := s.pos + 1), i)
      case RealTok(_) => Read(s.(failed := true), 0)
      case OtherTok => Read(s.(failed := true), 0)
  }
  /** The float that field f of a point's line goes to: 0 and 5 the scale,
      1 x, 2 y, 3 the orientation, 6 .. the descriptor (field 4, the
      laplacian, is the one integer). */
  function RealField(p: Ipoint, f: nat): real
    requires f < POINT_TOKENS && f != 4
  {
    if f == 0 || f == 5 then p.scale
    else if f == 1 then p.x
    else if f == 2 then p.y
    else if f == 3 then p.orientation
    else p.descriptor[f - 6]
  }

  function WithRealField(p: Ipoint, f: nat, v: real): Ipoint
    requires f < POINT_TOKENS && f != 4
  {
    if f == 0 || f == 5 then p.(scale := v)
    else if f == 1 then p.(x := v)
    else if f == 2 then p.(y := v)
    else if f == 3 then p.(orientation := v)
    else p.(descriptor := p.descriptor[f - 6 := v])
  }

  /** One `>>` into field f of `ipt`. */
  function ReadField(ts: seq<Token>, s: Stream, ipt: Ipoint, f: nat): PointRead
    requires f < POINT_TOKENS
  {
    if f == 4 then
      var l := ReadInt(ts, s, ipt.laplacian);
      PointRead(l.s, ipt.(laplacian := l.v))
    else
      var c := ReadReal(ts, s, RealField(ipt, f));
      PointRead(c.s, WithRealField(ipt, f, c.v))
  }

  /** The reads of fields f .. of one point, in place into `ipt`. */
  function ReadFields(ts: seq<Token>, s: Stream, ipt: Ipoint, f: nat): (r: PointRead)
    requires f <= POINT_TOKENS
    ensures r.v.clusterIndex == ipt.clusterIndex
    decreases POINT_TOKENS - f
  {
    if f == POINT_TOKENS then PointRead(s, ipt)
    else
      var r := ReadField(ts, s, ipt, f);
      ReadFields(ts, r.s, r.v, f + 1)
  }

  /** The body of loadSurf's point loop, reading into `ipt` as it was
      before the reads: scale, x, y, orientation, laplacian, the scale a
      second time (the value kept), then the descriptor.  The cluster index
      is not in the log. */
  function ReadIpoint(ts: seq<Token>, s: Stream, ipt: Ipoint): PointRead {
    ReadFields(ts, s, ipt, 0)
  }

  /** The reads of one point from the fields `ts`, as a function of the
      stream and the record read into. */
  function PointReader(ts: seq<Token>): (Stream, Ipoint) -> PointRead {
    (s: Stream, ipt: Ipoint) => ReadIpoint(ts, s, ipt)
  }

  /** Points i .. count - 1 of loadSurf's loop, each read by `read`; point
      i starts as the uninitialised record uninit(i). */
  function ReadPoints(read: (Stream, Ipoint) -> PointRead, s: Stream, count: int, uninit: nat -> Ipoint, i: nat): (r: seq<Ipoint>)
    ensures |r| == if i < count then count - i else 0
    decreases if i < count then count - i else 0
  {
    if i >= count then []
    else
      var p := read(s, uninit(i));
      [p.v] + ReadPoints(read, p.s, count, uninit, i + 1)
  }

  /** The header reads of loadSurf: the descriptor length (never used),
      then the count into `count`, which holds `countInit` before. */
  function ReadHeader(ts: seq<Token>, countInit: int): Read<int> {
    ReadInt(ts, ReadInt(ts, Stream(0, false), 0).s, countInit)
  }

  /** What loadSurf leaves in ipts: one record per announced point (none
      when the count is not positive), whatever the stream holds.  The
      count and each point's fields start uninitialised: `countInit` and
      `uninit` stand for those indeterminate values. */
  function LoadLog(ts: seq<Token>, countInit: int, uninit: nat -> Ipoint): (r: seq<Ipoint>)
    ensures var count := ReadHeader(ts, countInit).v;
            |r| == if count < 0 then 0 else count
  {
    var header := ReadHeader(ts, countInit);
    ReadPoints(PointReader(ts), header.s, header.v, uninit, 0)
  }

  /** A failed stream leaves the rest of the point as it was. */
  lemma {:induction false} FailedFieldsUnchanged(ts: seq<Token>, s: Stream, ipt: Ipoint, f: nat)
    requires f <= POINT_TOKENS && s.failed
    ensures ReadFields(ts, s, ipt, f) == PointRead(s, ipt)
    decreases POINT_TOKENS - f
  {
    if f < POINT_TOKENS {
      if f >= 6 {
        assert ipt.descriptor[f - 6 := ipt.descriptor[f - 6]] == ipt.descriptor;
      }
      assert ReadField(ts, s, ipt, f) == PointRead(s, ipt);
      FailedFieldsUnchanged(ts, s, ipt, f + 1);
    }
  }

  /** The uninitialised records uninit(i), .., uninit(i + n - 1). */
  function Untouched(uninit: nat -> Ipoint, i: nat, n: nat): (r: seq<Ipoint>)
    ensures |r| == n && forall k :: 0 <= k < n ==> r[k] == uninit(i + k)
    decreases n
  {
    if n == 0 then [] else [uninit(i)] + Untouched(uninit, i + 1, n - 1)
  }

  /** Once a read has failed, every later point is the uninitialised
      record, untouched. */
  lemma {:induction false} FailedReadsNothing(ts: seq<Token>, s: Stream, count: int, uninit: nat -> Ipoint, i: nat)
    requires s.failed
    ensures ReadPoints(PointReader(ts), s, count, uninit, i) == Untouched(uninit, i, if i < count then count - i else 0)
    decreases if i < count then count - i else 0
  {
    if i < count {
      FailedFieldsUnchanged(ts, s, uninit(i), 0);
      FailedReadsNothing(ts, s, count, uninit, i + 1);
    }
  }

  /** A truncated log: the header announces one point and the file ends.
      loadSurf still pushes one record, left uninitialised. */
  lemma TruncatedLog(countInit: int, uninit: nat -> Ipoint)
    ensures LoadLog([IntTok(DESC_SIZE), IntTok(1)], countInit, uninit) == [uninit(0)]
  {
    var ts := [IntTok(DESC_SIZE), IntTok(1)];
    assert ReadHeader(ts, countInit) == Read(Stream(2, false), 1);
    var failed := Stream(2, true);
    assert ReadField(ts, Stream(2, false), uninit(0), 0) == PointRead(failed, uninit(0));
    FailedFieldsUnchanged(ts, failed, uninit(0), 1);
    FailedReadsNothing(ts, failed, 1, uninit, 1);
  }

  /** An empty log: the count is never read and keeps its indeterminate
      value, and that many uninitialised records are pushed. */
  lemma EmptyLog(countInit: int, uninit: nat -> Ipoint)
    ensures LoadLog([], countInit, uninit) == Untouched(uninit, 0, if countInit < 0 then 0 else countInit)
  {
    assert ReadHeader([], countInit) == Read(Stream(0, true), countInit);
    FailedReadsNothing([], Stream(0, true), countInit, uninit, 0);
  }

  /** A field that is not a number, in place of the first point's x:
      x becomes 0, the scale keeps its first read, and nothing after is
      read, so the second point is its uninitialised record. */
  lemma MalformedField(countInit: int, uninit: nat -> Ipoint)
    ensures LoadLog([IntTok(DESC_SIZE), IntTok(2), RealTok(1.5), OtherTok], countInit, uninit)
            == [uninit(0).(scale := 1.5, x := 0.0), uninit(1)]
  {
    var ts := [IntTok(DESC_SIZE), IntTok(2), RealTok(1.5), OtherTok];
    assert ReadHeader(ts, countInit) == Read(Stream(2, false), 2);
    var failed := Stream(3, true);
    var first := uninit(0).(scale := 1.5);
    assert ReadField(ts, Stream(2, false), uninit(0), 0) == PointRead(Stream(3, false), first);
    assert ReadField(ts, Stream(3, false), first, 1) == PointRead(failed, first.(x := 0.0));
    FailedFieldsUnchanged(ts, failed, first.(x := 0.0), 2);
    assert ReadIpoint(ts, Stream(2, false), uninit(0)) == PointRead(failed, uninit(0).(scale := 1.5, x := 0.0));
    FailedReadsNothing(ts, failed, 2, uninit, 1);
  }

  /** Field f of the line written for `p`. */
  lemma PointTokensField(p: Ipoint, f: nat)
    requires f < POINT_TOKENS
    ensures PointTokens(p)[f] == if f == 4 then IntTok(p.laplacian) else RealTok(RealField(p, f))
  {
  }

  /** `ipt` holds p's values in the fields before f. */
  ghost predicate AgreesBelow(ipt: Ipoint, p: Ipoint, f: nat)
    requires f <= POINT_TOKENS
  {
    && (f > 0 ==> ipt.scale == p.scale)
    && (f > 1 ==> ipt.x == p.x)
    && (f > 2 ==> ipt.y == p.y)
    && (f > 3 ==> ipt.orientation == p.orientation)
    && (f > 4 ==> ipt.laplacian == p.laplacian)
    && (f > 6 ==> ipt.descriptor[..f - 6] == p.descriptor[..f - 6])
  }

  /** Reading the fields f .. of the line written for `p` into a record
      that already holds p's earlier fields gives p. */
  lemma {:induction false} ReadWriteFields(ts: seq<Token>, pos: nat, p: Ipoint, ipt: Ipoint, f: nat)
    requires f <= POINT_TOKENS && INT32_MIN <= p.laplacian <= INT32_MAX
    requires pos + POINT_TOKENS - f <= |ts| && ts[pos .. pos + POINT_TOKENS - f] == PointTokens(p)[f..]
    requires AgreesBelow(ipt, p, f)
    ensures ReadFields(ts, Stream(pos, false), ipt, f) == PointRead(Stream(pos + POINT_TOKENS - f, false), p.(clusterIndex := ipt.clusterIndex))
    decreases POINT_TOKENS - f
  {
    if f == POINT_TOKENS {
      assert ipt.descriptor == ipt.descriptor[..DESC_SIZE] == p.descriptor[..DESC_SIZE] == p.descriptor;
    } else {
      assert ts[pos] == PointTokens(p)[f];
      PointTokensField(p, f);
      var r := ReadField(ts, Stream(pos, false), ipt, f);
      if f == 4 {
        assert r == PointRead(Stream(pos + 1, false), ipt.(laplacian := p.laplacian));
      } else {
        assert r == PointRead(Stream(pos + 1, false), WithRealField(ipt, f, RealField(p, f)));
        if f >= 6 {
          assert r.v.descriptor[..f - 5] == p.descriptor[..f - 5];
        }
      }
      assert AgreesBelow(r.v, p, f + 1);
      assert ts[pos + 1 .. pos + POINT_TOKENS - f] == ts[pos .. pos + POINT_TOKENS - f][1..];
      ReadWriteFields(ts, pos + 1, p, r.v, f + 1);
    }
  }

  /** Reading a written line gives back the point, with the cluster index
      of the record read into. */
  lemma ReadWriteIpoint(ts: seq<Token>, pos: nat, p: Ipoint, ipt: Ipoint)
    requires INT32_MIN <= p.laplacian <= INT32_MAX
    requires pos + POINT_TOKENS <= |ts| && ts[pos .. pos + POINT_TOKENS] == PointTokens(p)
    ensures PointReader(ts)(Stream(pos, false), ipt) == PointRead(Stream(pos + POINT_TOKENS, false), p.(clusterIndex := ipt.clusterIndex))
  {
    ReadWriteFields(ts, pos, p, ipt, 0);
  }

  /** Line k of the written points is point k's line. */
  lemma {:induction false} PointsTokensChunk(ipts: seq<Ipoint>, k: nat)
    requires k < |ipts|
    ensures PointsTokens(ipts)[POINT_TOKENS * k .. POINT_TOKENS * (k + 1)] == PointTokens(ipts[k])
  {
    var init := ipts[..|ipts| - 1];
    var front, last := PointsTokens(init), PointTokens(ipts[|ipts| - 1]);
    assert PointsTokens(ipts) == front + last;
    var lo, hi := POINT_TOKENS * k, POINT_TOKENS * (k + 1);
    assert hi == lo + POINT_TOKENS;
    if k < |init| {
      assert hi <= POINT_TOKENS * |init| by {
        assert POINT_TOKENS * |init| == hi + POINT_TOKENS * (|init| - (k + 1));
      }
      assert (front + last)[lo..hi] == front[lo..hi];
      PointsTokensChunk(init, k);
      assert ipts[k] == init[k];
    } else {
      assert lo == |front|;
      assert (front + last)[lo..hi] == last;
    }
  }

  /** Line k of a written log starts at field 2 + POINT_TOKENS * k. */
  lemma ChunkOfLog(ipts: seq<Ipoint>, k: nat)
    requires k < |ipts|
    ensures var ts := LogTokens(ipts);
            2 + POINT_TOKENS * k + POINT_TOKENS <= |ts|
            && ts[2 + POINT_TOKENS * k .. 2 + POINT_TOKENS * k + POINT_TOKENS] == PointTokens(ipts[k])
  {
    PointsTokensChunk(ipts, k);
    var ts := LogTokens(ipts);
    assert ts[2..] == PointsTokens(ipts);
    assert ts[2 + POINT_TOKENS * k .. 2 + POINT_TOKENS * k + POINT_TOKENS]
        == ts[2..][POINT_TOKENS * k .. POINT_TOKENS * (k + 1)];
  }

  /** Reading line k of a written log, from its first field, gives back
      point k with the cluster index of the record read into, and stops
      at the first field of line k + 1. */
  lemma ReadLogLine(ipts: seq<Ipoint>, k: nat, ipt: Ipoint)
    requires k < |ipts| && INT32_MIN <= ipts[k].laplacian <= INT32_MAX
    ensures PointReader(LogTokens(ipts))(Stream(2 + POINT_TOKENS * k, false), ipt)
            == PointRead(Stream(2 + POINT_TOKENS * (k + 1), false), ipts[k].(clusterIndex := ipt.clusterIndex))
  {
    var pos := 2 + POINT_TOKENS * k;
    assert pos + POINT_TOKENS == 2 + POINT_TOKENS * (k + 1);
    ChunkOfLog(ipts, k);
    ReadWriteIpoint(LogTokens(ipts), pos, ipts[k], ipt);
  }

  /** The point reads from field starts[k] into recs[k] give pts[k] and
      stop at field starts[k + 1], without failing. */
  ghost predicate Chained(read: (Stream, Ipoint) -> PointRead, starts: seq<nat>, recs: seq<Ipoint>, pts: seq<Ipoint>) {
    |starts| == |pts| + 1 && |recs| == |pts|
    && forall k :: 0 <= k < |pts| ==> read(Stream(starts[k], false), recs[k]) == PointRead(Stream(starts[k + 1], false), pts[k])
  }

  /** One turn of loadSurf's point loop: the point read, then the rest. */
  lemma PointsStep(read: (Stream, Ipoint) -> PointRead, s: Stream, count: int, uninit: nat -> Ipoint, i: nat, p: PointRead)
    requires i < count && read(s, uninit(i)) == p
    ensures ReadPoints(read, s, count, uninit, i) == [p.v] + ReadPoints(read, p.s, count, uninit, i + 1)
  {
  }

  /** Along such a chain, loadSurf's loop from point i + j on reads
      pts[j..], when the records read into are the uninitialised ones. */
  lemma {:induction false} ReadPointsChain(read: (Stream, Ipoint) -> PointRead, starts: seq<nat>, pts: seq<Ipoint>, count: int, uninit: nat -> Ipoint, i: nat, j: nat)
    requires Chained(read, starts, Untouched(uninit, i, |pts|), pts) && count == i + |pts| && j <= |pts|
    ensures ReadPoints(read, Stream(starts[j], false), count, uninit, i + j) == pts[j..]
    decreases |pts| - j
  {
    if j < |pts| {
      var recs := Untouched(uninit, i, |pts|);
      assert recs[j] == uninit(i + j);
      PointsStep(read, Stream(starts[j], false), count, uninit, i + j, PointRead(Stream(starts[j + 1], false), pts[j]));
      ReadPointsChain(read, starts, pts, count, uninit, i, j + 1);
      assert pts[j..] == [pts[j]] + pts[j + 1..];
    }
  }

  /** The header of a written log reads back as the number of points. */
  lemma LogHeader(ipts: seq<Ipoint>, countInit: int)
    requires |ipts| <= INT32_MAX
    ensures ReadHeader(LogTokens(ipts), countInit) == Read(Stream(2, false), |ipts|)
  {
    var ts := LogTokens(ipts);
    assert ts[0] == IntTok(DESC_SIZE) && ts[1] == IntTok(|ipts|);
  }

  /** The point loop over a written log, from its first line, gives back
      the points with the cluster indexes of the records read into. */
  lemma {:induction false} ReadLogLines(ipts: seq<Ipoint>, uninit: nat -> Ipoint)
    requires forall k :: 0 <= k < |ipts| ==> INT32_MIN <= ipts[k].laplacian <= INT32_MAX
    ensures ReadPoints(PointReader(LogTokens(ipts)), Stream(2, false), |ipts|, uninit, 0)
            == seq(|ipts|, k requires 0 <= k < |ipts| => ipts[k].(clusterIndex := uninit(k).clusterIndex))
  {
    var starts := seq(|ipts| + 1, k requires 0 <= k <= |ipts| => 2 + POINT_TOKENS * k);
    var pts := seq(|ipts|, k requires 0 <= k < |ipts| => ipts[k].(clusterIndex := uninit(k).clusterIndex));
    var recs := Untouched(uninit, 0, |ipts|);
    var read := PointReader(LogTokens(ipts));
    forall k | 0 <= k < |pts|
      ensures read(Stream(starts[k], false), recs[k]) == PointRead(Stream(starts[k + 1], false), pts[k])
    {
      ReadLogLine(ipts, k, recs[k]);
    }
    ReadPointsChain(read, starts, pts, |ipts|, uninit, 0, 0);
    assert pts[0..] == pts;
  }

  /** Loading a written log gives back the points.  The cluster index is
      not written, so each record keeps the one it was read into. */
  lemma LogRoundTrip(ipts: seq<Ipoint>, countInit: int, uninit: nat -> Ipoint)
    requires |ipts| <= INT32_MAX && forall k :: 0 <= k < |ipts| ==> INT32_MIN <= ipts[k].laplacian <= INT32_MAX
    ensures LoadLog(LogTokens(ipts), countInit, uninit)
            == seq(|ipts|, k requires 0 <= k < |ipts| => ipts[k].(clusterIndex := uninit(k).clusterIndex))
  {
    LogHeader(ipts, countInit);
    ReadLogLines(ipts, uninit);
  }

  /** The descriptor loop of loadSurf: fields 6 .. of the point. */
  method ReadDescriptor(ts: seq<Token>, s: Stream, ipt: Ipoint) returns (r: PointRead)
    ensures r == ReadFields(ts, s, ipt, 6)
  {
    var st := s;
    var cur := ipt;
    var j := 0;
    while j < DESC_SIZE
      invariant 0 <= j <= DESC_SIZE
      invariant ReadFields(ts, st, cur, 6 + j) == ReadFields(ts, s, ipt, 6)
    {
      var c := ReadReal(ts, st, cur.descriptor[j]);
      st := c.s;
      cur := cur.(descriptor := cur.descriptor[j := c.v]);
      j := j + 1;
    }
    return PointRead(st, cur);
  }

  /** The reads that open loadSurf's point loop: scale, x, y,
      orientation, laplacian and the scale a second time, fields 0 .. 5. */
  method ReadPointFields(ts: seq<Token>, s: Stream, ipt: Ipoint) returns (r: PointRead)
    ensures ReadFields(ts, r.s, r.v, 6) == ReadFields(ts, s, ipt, 0)
  {
    var st, cur := s, ipt;
    var scale := ReadReal(ts, st, cur.scale);
    st, cur := scale.s, cur.(scale := scale.v);
    assert ReadFields(ts, st, cur, 1) == ReadFields(ts, s, ipt, 0);
    var x := ReadReal(ts, st, cur.x);
    st, cur := x.s, cur.(x := x.v);
    assert ReadFields(ts, st, cur, 2) == ReadFields(ts, s, ipt, 0);
    var y := ReadReal(ts, st, cur.y);
    st, cur := y.s, cur.(y := y.v);
    assert ReadFields(ts, st, cur, 3) == ReadFields(ts, s, ipt, 0);
    var orientation := ReadReal(ts, st, cur.orientation);
    st, cur := orientation.s, cur.(orientation := orientation.v);
    assert ReadFields(ts, st, cur, 4) == ReadFields(ts, s, ipt, 0);
    var laplacian := ReadInt(ts, st, cur.laplacian);
    st, cur := laplacian.s, cur.(laplacian := laplacian.v);
    assert ReadFields(ts, st, cur, 5) == ReadFields(ts, s, ipt, 0);
    var scale2 := ReadReal(ts, st, cur.scale);
    st, cur := scale2.s, cur.(scale := scale2.v);
    return PointRead(st, cur);
  }

  /** The body of loadSurf's point loop: the reads of one point into `ipt`. */
  method ReadPoint(ts: seq<Token>, s: Stream, ipt: Ipoint) returns (r: PointRead)
    ensures r == PointReader(ts)(s, ipt)
  {
    var head := ReadPointFields(ts, s, ipt);
    r := ReadDescriptor(ts, head.s, head.v);
  }

  /** loadSurf, field by field, over the fields of the file. */
  method LoadSurf(ts: seq<Token>, countInit: int, uninit: nat -> Ipoint) returns (ipts: seq<Ipoint>)
    ensures ipts == LoadLog(ts, countInit, uninit)
  {
    var s := Stream(0, false);
    var descriptorLength := ReadInt(ts, s, 0);
    s := descriptorLength.s;
    var header := ReadInt(ts, s, countInit);
    s := header.s;
    var count := header.v;
    ghost var log := LoadLog(ts, countInit, uninit);
    ipts := [];
    var i := 0;
    while i < count
      invariant 0 <= i && (0 <= count ==> i <= count)
      invariant log == ipts + ReadPoints(PointReader(ts), s, count, uninit, i)
      decreases count - i
    {
      var read := ReadPoint(ts, s, uninit(i));
      PointsStep(PointReader(ts), s, count, uninit, i, read);
      s := read.s;
      ipts := ipts + [read.v];
      i := i + 1;
    }
  }
}
