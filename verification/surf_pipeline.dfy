/** The per-frame SURF driver (`Surf`, surf_src/surf.cpp): the constant
    sampling tables, the per-point device buffers and their re-sizing when
    the detector finds more points than they hold, the dispatch sizes of
    the integral-image, orientation and descriptor kernels, the run/skip
    bookkeeping, and the unpacking of the structure-of-arrays results into
    `Ipoint` records.  Kernels are not modelled: a dispatch is recorded as
    a `Launch`, and the detector's point counts are parameters. */
module SurfPipeline {
  import opened Common
  import opened Features
  import HostUtils
  import opened FastHessianModel

  // ---------------------------------------------------------------------
  // Sampling tables
  // ---------------------------------------------------------------------

  /** Surf::i, the row offsets of the 16 descriptor sub-regions. */
  const I_OFFSETS: seq<int> := [-12, -12, -12, -12, -7, -7, -7, -7, -2, -2, -2, -2, 3, 3, 3, 3]

  /** Surf::j, the column offsets of the 16 descriptor sub-regions. */
  const J_OFFSETS: seq<int> := [-12, -7, -2, 3, -12, -7, -2, 3, -12, -7, -2, 3, -12, -7, -2, 3]

  /** Surf::id, the index into the 7x7 gauss25 table for an offset of
      k - 6. */
  const GAUSS_INDEX: seq<int> := [6, 5, 4, 3, 2, 1, 0, 1, 2, 3, 4, 5, 6]

  /** The offset tables enumerate {-12, -7, -2, 3} x {-12, -7, -2, 3} row by
      row: entry k is (-12 + 5 (k / 4), -12 + 5 (k % 4)). */
  lemma OffsetTablesFormula(k: nat)
    requires k < 16
    ensures |I_OFFSETS| == 16 && |J_OFFSETS| == 16
    ensures I_OFFSETS[k] == -12 + 5 * (k / 4)
    ensures J_OFFSETS[k] == -12 + 5 * (k % 4)
  {
    if k < 4 {
    } else if k < 8 {
    } else if k < 12 {
    } else {
    }
  }

  /** Every pair of the grid appears exactly once: distinct entries give
      distinct (i, j) pairs. */
  lemma OffsetPairsDistinct(k: nat, m: nat)
    requires k < 16 && m < 16 && k != m
    ensures (I_OFFSETS[k], J_OFFSETS[k]) != (I_OFFSETS[m], J_OFFSETS[m])
  {
    OffsetTablesFormula(k);
    OffsetTablesFormula(m);
    if k / 4 == m / 4 {
      assert k % 4 != m % 4;
    }
  }

  /** The gauss25 index table is |k - 6|: symmetric about its middle and
      always a valid index of a 7-entry row. */
  lemma GaussIndexFormula(k: nat)
    requires k < 13
    ensures |GAUSS_INDEX| == 13
    ensures GAUSS_INDEX[k] == Abs(k - 6)
    ensures GAUSS_INDEX[k] == GAUSS_INDEX[12 - k]
    ensures 0 <= GAUSS_INDEX[k] < 7
  {
    if k < 7 {
    } else {
    }
  }

  // ---------------------------------------------------------------------
  // Per-point buffers
  // ---------------------------------------------------------------------

  /** Element counts of the per-point device buffers: floats for scale,
      orientation, length and desc, float2 for pixPos, ints for
      laplacian, float4 for the orientation workspace res. */
  datatype Buffers = Buffers(scale: nat, pixPos: nat, laplacian: nat, orientation: nat,
                             length: nat, desc: nat, res: nat)

  /** float4 entries of the orientation workspace per point. */
  const RES_PER_POINT: nat := 109

  /** Buffers for n points: one entry per point, DESC_SIZE floats per point
      for desc and length, and RES_PER_POINT float4 per point for res. */
  function PointBuffers(n: nat): (b: Buffers)
    ensures b.scale == n && b.pixPos == n && b.laplacian == n && b.orientation == n
    ensures b.desc == DESC_SIZE * n && b.length == DESC_SIZE * n
    ensures b.res == RES_PER_POINT * n
  {
    Buffers(n, n, n, n, DESC_SIZE * n, DESC_SIZE * n, RES_PER_POINT * n)
  }

  /** The buffers the constructor allocates for initialPoints points. */
  function ConstructorBuffersAsWritten(n: nat): Buffers
  {
    Buffers(n, n, n, n, n * DESC_SIZE, n * DESC_SIZE, n * 109)
  }

  /** The buffers reallocateIptBuffers allocates for newSize points. */
  function ReallocatedBuffersAsWritten(n: nat): Buffers
  {
    Buffers(n, n, n, n, n * DESC_SIZE, n * DESC_SIZE, n * 121)
  }

  /** The constructor and the reallocation agree on every buffer except the
      orientation workspace, which gets 109 float4 per point in one and 121
      in the other; the constructor's sizes are the uniform ones. */
  lemma WorkspaceSizesDisagree(n: nat)
    requires n > 0
    ensures ConstructorBuffersAsWritten(n) == PointBuffers(n)
    ensures ReallocatedBuffersAsWritten(n).res != ConstructorBuffersAsWritten(n).res
    ensures ReallocatedBuffersAsWritten(n).(res := 0) == ConstructorBuffersAsWritten(n).(res := 0)
  {
  }

  /** Number of offsets (i, j), -6 <= i, j <= 6, with i^2 + j^2 < 36, row by
      row from row i. */
  function DiscRows(i: int): (r: nat)
    requires -6 <= i <= 7
    decreases 7 - i
  {
    if i == 7 then 0 else DiscRow(i, -6) + DiscRows(i + 1)
  }

  function DiscRow(i: int, j: int): (r: nat)
    requires -6 <= j <= 7
    decreases 7 - j
  {
    if j == 7 then 0 else (if i * i + j * j < 36 then 1 else 0) + DiscRow(i, j + 1)
  }

  /** A row depends on i only through i * i. */
  lemma {:induction false} DiscRowSymmetric(i: int, j: int)
    requires -6 <= j <= 7
    ensures DiscRow(-i, j) == DiscRow(i, j)
    decreases 7 - j
  {
    if j < 7 {
      DiscRowSymmetric(i, j + 1);
    }
  }

  lemma InnerRowCounts()
    ensures DiscRow(0, -6) == 11 && DiscRow(1, -6) == 11 && DiscRow(2, -6) == 11 && DiscRow(3, -6) == 11
  {
    RowCount(0);
    RowCount(1);
    RowCount(2);
    RowCount(3);
  }

  /** The inner rows, |i| <= 3, hold the eleven offsets -5 .. 5. */
  lemma RowCount(i: int)
    requires 0 <= i <= 3
    ensures DiscRow(i, -6) == 11
  {
    assert DiscRow(i, 6) == 0;
    assert DiscRow(i, 0) == 6;
    assert DiscRow(i, -6) == 0 + 5 + DiscRow(i, 0);
  }

  lemma OuterRowCounts()
    ensures DiscRow(4, -6) == 9 && DiscRow(5, -6) == 7 && DiscRow(6, -6) == 0
  {
  }

  /** 109 is the number of integer offsets strictly inside the radius-6
      disc, the sample window of the SURF orientation step; 121 = 11 x 11
      is not such a count. */
  lemma DiscHas109Samples()
    ensures DiscRows(-6) == RES_PER_POINT
  {
    InnerRowCounts();
    OuterRowCounts();
    DiscRowSymmetric(1, -6);
    DiscRowSymmetric(2, -6);
    DiscRowSymmetric(3, -6);
    DiscRowSymmetric(4, -6);
    DiscRowSymmetric(5, -6);
    DiscRowSymmetric(6, -6);
    assert DiscRows(0) == 11 + 11 + 11 + 11 + 9 + 7 + 0;
    assert DiscRows(-6) == 0 + 7 + 9 + 11 + 11 + 11 + DiscRows(0);
  }

  // ---------------------------------------------------------------------
  // Dispatch sizes
  // ---------------------------------------------------------------------

  /** Every dimension of the grid is a whole number of work groups. */
  predicate WholeGroups(l: Launch) {
    && |l.global| == |l.local|
    && forall d :: 0 <= d < |l.global| ==> l.local[d] > 0 && l.global[d] % l.local[d] == 0
  }

  /** computeIntegralImage: a row scan, a transpose, a scan of the
      transposed rows and a transpose back. */
  function IntegralImageLaunches(width: nat, height: nat): (r: seq<Launch>)
    requires width <= INT32_MAX && height <= INT32_MAX
    ensures |r| == 4
  {
    [Launch("Scan", [64, height], [64, 1], 0, []),
     Launch("Transpose", [HostUtils.RoundUp(width, 16), HostUtils.RoundUp(height, 16)], [16, 16], 0, []),
     Launch("Scan", [64, width], [64, 1], 1, []),
     Launch("Transpose", [HostUtils.RoundUp(height, 16), HostUtils.RoundUp(width, 16)], [16, 16], 1, [])]
  }

  /** getOrientations: 169 work items per point, then 42 per point. */
  function OrientationLaunches(n: nat): (r: seq<Launch>)
    ensures |r| == 2
  {
    [Launch("GetOrientations", [n * 169], [169], 0, []),
     Launch("GetOrientations2", [n * 42], [42], 0, [])]
  }

  /** createDescriptors: 16 groups of 81 per point, then 64 work items per
      point for the normalisation. */
  function DescriptorLaunches(n: nat): (r: seq<Launch>)
    ensures |r| == 2
  {
    [Launch("CreateDescriptors", [16 * 81, n], [81, 1], 0, []),
     Launch("NormalizeDescriptors", [n * DESC_SIZE], [DESC_SIZE], 0, [])]
  }

  /** Every grid the pipeline enqueues is a whole number of work groups
      whatever the image size and point count. */
  lemma LaunchesAreWholeGroups(width: nat, height: nat, n: nat)
    requires width <= INT32_MAX && height <= INT32_MAX
    ensures forall l :: l in IntegralImageLaunches(width, height) ==> WholeGroups(l)
    ensures forall l :: l in OrientationLaunches(n) ==> WholeGroups(l)
    ensures forall l :: l in DescriptorLaunches(n) ==> WholeGroups(l)
  {
    IntegralImageWholeGroups(width, height);
    var os := OrientationLaunches(n);
    assert (n * 169) % 169 == 0 && (n * 42) % 42 == 0;
    assert WholeGroups(os[0]) && WholeGroups(os[1]);
    var ds := DescriptorLaunches(n);
    assert (16 * 81) % 81 == 0 && n % 1 == 0 && (n * DESC_SIZE) % DESC_SIZE == 0;
    assert WholeGroups(ds[0]) && WholeGroups(ds[1]);
  }

  lemma IntegralImageWholeGroups(width: nat, height: nat)
    requires width <= INT32_MAX && height <= INT32_MAX
    ensures forall l :: l in IntegralImageLaunches(width, height) ==> WholeGroups(l)
  {
    GroupsCover(width);
    GroupsCover(height);
    var ls := IntegralImageLaunches(width, height);
    assert WholeGroups(ls[0]) && WholeGroups(ls[2]);
    assert WholeGroups(ls[1]) && WholeGroups(ls[3]);
  }

  /** The launches after detection for a non-zero count: orientation only
      when that stage is enabled, then the descriptors. */
  function StageLaunches(n: nat, orientationStage: bool): seq<Launch>
  {
    (if orientationStage then OrientationLaunches(n) else []) + DescriptorLaunches(n)
  }

  // ---------------------------------------------------------------------
  // Unpacking the results
  // ---------------------------------------------------------------------

  /** Point k of the structure-of-arrays results: position, scale,
      laplacian and orientation at k, descriptor desc[64k .. 64k + 64).
      The source leaves clusterIndex uninitialised; the model writes 0. */
  function UnpackPoint(pixPos: seq<(real, real)>, scale: seq<real>, laplacian: seq<int>,
                       orientation: seq<real>, desc: seq<real>, k: nat): (p: Ipoint)
    requires k < |pixPos| && k < |scale| && k < |laplacian| && k < |orientation|
    requires DESC_SIZE * (k + 1) <= |desc|
  {
    Ipoint(pixPos[k].0, pixPos[k].1, scale[k], orientation[k], laplacian[k], 0,
           desc[DESC_SIZE * k .. DESC_SIZE * (k + 1)])
  }

  /** The structure-of-arrays layout of a list of points, as the kernels
      leave it in the device buffers. */
  function PixPosOf(ipts: seq<Ipoint>): (r: seq<(real, real)>)
    ensures |r| == |ipts| && forall k :: 0 <= k < |ipts| ==> r[k] == (ipts[k].x, ipts[k].y)
  {
    seq(|ipts|, k requires 0 <= k < |ipts| => (ipts[k].x, ipts[k].y))
  }

  function ScaleOf(ipts: seq<Ipoint>): (r: seq<real>)
    ensures |r| == |ipts| && forall k :: 0 <= k < |ipts| ==> r[k] == ipts[k].scale
  {
    seq(|ipts|, k requires 0 <= k < |ipts| => ipts[k].scale)
  }

  function LaplacianOf(ipts: seq<Ipoint>): (r: seq<int>)
    ensures |r| == |ipts| && forall k :: 0 <= k < |ipts| ==> r[k] == ipts[k].laplacian
  {
    seq(|ipts|, k requires 0 <= k < |ipts| => ipts[k].laplacian)
  }

  function OrientationOf(ipts: seq<Ipoint>): (r: seq<real>)
    ensures |r| == |ipts| && forall k :: 0 <= k < |ipts| ==> r[k] == ipts[k].orientation
  {
    seq(|ipts|, k requires 0 <= k < |ipts| => ipts[k].orientation)
  }

  /** The descriptors laid end to end. */
  function DescOf(ipts: seq<Ipoint>): (r: seq<real>)
    ensures |r| == DESC_SIZE * |ipts|
  {
    if ipts == [] then [] else ipts[0].descriptor + DescOf(ipts[1..])
  }

  lemma {:induction false} DescOfSlice(ipts: seq<Ipoint>, k: nat)
    requires k < |ipts|
    ensures DescOf(ipts)[DESC_SIZE * k .. DESC_SIZE * (k + 1)] == ipts[k].descriptor
  {
    if k > 0 {
      DescOfSlice(ipts[1..], k - 1);
      assert DescOf(ipts) == ipts[0].descriptor + DescOf(ipts[1..]);
      assert DescOf(ipts)[DESC_SIZE * k .. DESC_SIZE * (k + 1)]
          == DescOf(ipts[1..])[DESC_SIZE * (k - 1) .. DESC_SIZE * k];
    }
  }

  /** Unpacking the layout of a list of points gives back every point, with
      clusterIndex reset to 0. */
  lemma UnpackOfLayout(ipts: seq<Ipoint>, k: nat)
    requires k < |ipts|
    ensures UnpackPoint(PixPosOf(ipts), ScaleOf(ipts), LaplacianOf(ipts), OrientationOf(ipts), DescOf(ipts), k)
            == ipts[k].(clusterIndex := 0)
  {
    DescOfSlice(ipts, k);
  }

  // ---------------------------------------------------------------------
  // The driver
  // ---------------------------------------------------------------------

  /** The capacity and point count the driver settles on, from the first
      count read back, the second one (read only when the first does not
      fit) and the capacity maxIpts; None when a count it uses is negative,
      which ends the program.  A first count that fits is kept; one that
      does not doubles into the new capacity, and the second count is
      taken as it is. */
  function Settle(first: int, second: int, capacity: nat): (r: Option<(nat, nat)>)
  {
    if first < 0 then None
    else if first < capacity then Some((capacity, first))
    else if second < 0 then None
    else Some((2 * first, second))
  }

  /** Settle applied to one frame: the detector counter starts at `total`
      and the first detection adds `found1`; the repeated detection starts
      from zero and adds `found2`. */
  function FrameCounts(total: int, octaves: nat, found1: nat -> nat, found2: nat -> nat, capacity: nat): Option<(nat, nat)> {
    Settle(CountAfter(total, octaves, found1), CountAfter(0, octaves, found2), capacity)
  }

  /** The capacity never shrinks, and a first count that does not fit is
      below the new capacity unless it is zero. */
  lemma SettleGrowsCapacity(first: int, second: int, capacity: nat)
    requires Settle(first, second, capacity).Some?
    ensures Settle(first, second, capacity).value.0 >= capacity
    ensures first >= capacity && first > 0 ==> first < Settle(first, second, capacity).value.0
    ensures Settle(first, second, capacity).value.1 == (if first < capacity then first else second)
  {
  }

  /** When the repeated detection reports what the first one did (the same
      frame after a reset of the counter) the settled count fits the
      settled capacity, strictly unless both are zero. */
  lemma SettleSameCountFits(count: int, capacity: nat)
    requires count >= 0
    ensures var s := Settle(count, count, capacity);
            s.Some? && s.value.1 <= s.value.0 && (s.value.1 < s.value.0 || s.value.1 == 0)
  {
  }

  /** The second count is not checked against the new capacity: a frame
      whose repeated detection reports more points than twice the first
      count settles on a count above the capacity. */
  lemma SettleLeavesSecondCountUnchecked()
    ensures Settle(5, 11, 3) == Some((10, 11))
    ensures var s := Settle(5, 11, 3); s.value.1 > s.value.0
  {
  }

  /** The test after the first detection: a valid count that does not fit
      the capacity sends run into the regrow branch. */
  predicate Regrows(first: int, capacity: nat) {
    0 <= first && capacity <= first
  }

  /** How a call of run ends: the frame went through the pipeline, the
      pipeline was disabled and the frame skipped, or the program exited
      (upright descriptors requested, or a negative point count). */
  datatype RunResult = Ran | Skipped | Exited

  class Surf {
    var maxIpts: nat
    var numIpts: nat
    var runcount: nat
    var skipcount: nat
    var pipelineState: bool
    var runOrientationStage: bool
    /** Sizes of the per-point device buffers. */
    var buffers: Buffers
    /** Kernel dispatches this object enqueues itself, in order. */
    var launches: seq<Launch>
    const fh: FastHessian

    ghost predicate Valid()
      reads this`buffers, this`maxIpts, fh`octaves, fh`intervals, fh`sampleStep, fh`thres
      reads fh`imageWidth, fh`imageHeight, fh`responseMap, fh`detection
    {
      fh.Valid() && buffers == PointBuffers(maxIpts)
    }

    /** The constructor: both stages enabled, counters zero, a detector for
        the image, and per-point buffers for initialPoints points. */
    constructor (initialPoints: nat, iHeight: nat, iWidth: nat, octaves: int,
                 intervals: int, sampleStep: int, threshold: real)
      requires iHeight <= INT32_MAX && iWidth <= INT32_MAX
      ensures Valid() && fresh(fh)
      ensures pipelineState && runOrientationStage
      ensures runcount == 0 && skipcount == 0 && launches == []
      ensures maxIpts == initialPoints
      ensures buffers == ConstructorBuffersAsWritten(initialPoints)
      ensures fh.octaves == ClampOctaves(octaves) && fh.deviceTotal == 0
    {
      pipelineState := true;
      runOrientationStage := true;
      runcount := 0;
      skipcount := 0;
      fh := new FastHessian(iHeight, iWidth, octaves, intervals, sampleStep, threshold);
      buffers := ConstructorBuffersAsWritten(initialPoints);
      maxIpts := initialPoints;
      numIpts := 0;
      launches := [];
    }

    method SetPipelineState(state: bool)
      modifies this`pipelineState
      ensures pipelineState == state
    {
      pipelineState := state;
    }

    /** reset: zeroes the detector's point counter. */
    method Reset()
      requires Valid()
      modifies fh`deviceTotal
      ensures Valid() && fh.deviceTotal == 0
    {
      fh.Reset();
    }

    /** reallocateIptBuffers: every per-point buffer re-sized to maxIpts. */
    method ReallocateIptBuffers()
      modifies this`buffers
      ensures buffers == PointBuffers(maxIpts)
    {
      var newSize := maxIpts;
      buffers := PointBuffers(newSize);
    }

    method ComputeIntegralImage(width: nat, height: nat)
      requires width <= INT32_MAX && height <= INT32_MAX
      modifies this`launches
      ensures launches == old(launches) + IntegralImageLaunches(width, height)
    {
      var rowsUp := HostUtils.RoundUp(height, 16);
      var colsUp := HostUtils.RoundUp(width, 16);
      launches := launches + [Launch("Scan", [64, height], [64, 1], 0, [])];
      launches := launches + [Launch("Transpose", [colsUp, rowsUp], [16, 16], 0, [])];
      launches := launches + [Launch("Scan", [64, width], [64, 1], 1, [])];
      launches := launches + [Launch("Transpose", [rowsUp, colsUp], [16, 16], 1, [])];
    }

    method GetOrientations()
      modifies this`launches
      ensures launches == old(launches) + (if runOrientationStage then OrientationLaunches(numIpts) else [])
    {
      if runOrientationStage {
        launches := launches + [Launch("GetOrientations", [numIpts * 169], [169], 0, [])];
        launches := launches + [Launch("GetOrientations2", [numIpts * 42], [42], 0, [])];
      }
    }

    method CreateDescriptors()
      modifies this`launches
      ensures launches == old(launches) + DescriptorLaunches(numIpts)
    {
      launches := launches + [Launch("CreateDescriptors", [16 * 81, numIpts], [81, 1], 0, [])];
      launches := launches + [Launch("NormalizeDescriptors", [numIpts * DESC_SIZE], [DESC_SIZE], 0, [])];
    }

    /** One call of the detector's getIpoints, seen from the driver: the
        counter grows by what the passes report and is read back as an
        int32, a negative value being invalid. */
    method DetectOnce(found: nat -> nat) returns (c: Count)
      requires Valid()
      modifies fh`launches, fh`deviceTotal, fh`numIpts
      ensures Valid()
      ensures fh.launches == old(fh.launches) + fh.detection
      ensures fh.deviceTotal == old(fh.deviceTotal) + FoundSum(found, 2 * fh.octaves)
      ensures fh.numIpts == CountAfter(old(fh.deviceTotal), fh.octaves, found)
      ensures c == if fh.numIpts < 0 then InvalidCount else Count(fh.numIpts)
    {
      c := fh.GetIpoints(found);
    }

    /** The stages after detection: none for a zero count, otherwise the
        orientations (when that stage is enabled) and the descriptors. */
    method DescribePoints()
      modifies this`launches
      ensures launches == old(launches) + (if numIpts == 0 then [] else StageLaunches(numIpts, runOrientationStage))
    {
      if numIpts == 0 {
        return;
      }
      GetOrientations();
      CreateDescriptors();
    }

    /** Detection for one frame, settled by `Settle` from the two counts
        read back: `found1` and `found2` are the points each suppression
        pass reports in the first and in the repeated detection.  Returns
        false when the program exits on a negative count. */
    method DetectPoints(found1: nat -> nat, found2: nat -> nat) returns (ok: bool)
      requires Valid()
      modifies this`numIpts, this`maxIpts, this`buffers, fh`launches, fh`deviceTotal, fh`numIpts
      ensures ok ==> Valid()
      ensures var s := FrameCounts(old(fh.deviceTotal), fh.octaves, found1, found2, old(maxIpts));
              ok == s.Some? && (ok ==> maxIpts == s.value.0 && numIpts == s.value.1)
      ensures fh.launches == old(fh.launches) + fh.detection
                             + (if Regrows(CountAfter(old(fh.deviceTotal), fh.octaves, found1), old(maxIpts))
                                then fh.detection else [])
      ensures fh.deviceTotal == if Regrows(CountAfter(old(fh.deviceTotal), fh.octaves, found1), old(maxIpts))
                                then FoundSum(found2, 2 * fh.octaves)
                                else old(fh.deviceTotal) + FoundSum(found1, 2 * fh.octaves)
      ensures fh.numIpts == if Regrows(CountAfter(old(fh.deviceTotal), fh.octaves, found1), old(maxIpts))
                             then CountAfter(0, fh.octaves, found2)
                             else CountAfter(old(fh.deviceTotal), fh.octaves, found1)
    {
      var count := DetectOnce(found1);
      if count.InvalidCount? {
        return false;
      }
      numIpts := count.n;
      if numIpts >= maxIpts {
        ok := Regrow(found2);
        return;
      }
      return true;
    }

    /** The overflow branch of run: capacity twice the count, the buffers
        re-sized, the counter reset and detection repeated once; the second
        count is taken as it is. */
    method Regrow(found2: nat -> nat) returns (ok: bool)
      requires Valid()
      modifies this`numIpts, this`maxIpts, this`buffers, fh`launches, fh`deviceTotal, fh`numIpts
      ensures maxIpts == 2 * old(numIpts)
      ensures fh.launches == old(fh.launches) + fh.detection
      ensures fh.deviceTotal == FoundSum(found2, 2 * fh.octaves)
      ensures fh.numIpts == CountAfter(0, fh.octaves, found2)
      ensures ok == (fh.numIpts >= 0) && (ok ==> Valid() && numIpts == fh.numIpts)
    {
      maxIpts := numIpts * 2;
      ReallocateIptBuffers();
      fh.Reset();
      var count := DetectOnce(found2);
      if count.InvalidCount? {
        return false;
      }
      numIpts := count.n;
      return true;
    }

    /** run on one frame of `width` x `height` pixels: upright descriptors
        end the program; with the pipeline disabled the frame is only
        counted as skipped; otherwise the integral image, detection, and,
        for a non-zero count, orientation and descriptors. */
    method Run(upright: bool, width: nat, height: nat, found1: nat -> nat, found2: nat -> nat)
      returns (r: RunResult)
      requires Valid() && width <= INT32_MAX && height <= INT32_MAX
      modifies this`runcount, this`skipcount, this`numIpts, this`maxIpts, this`buffers, this`launches
      modifies fh`launches, fh`deviceTotal, fh`numIpts
      ensures r != Exited ==> Valid()
      ensures upright ==> r == Exited && runcount == old(runcount) && skipcount == old(skipcount)
      ensures !upright && !pipelineState ==>
                r == Skipped && skipcount == old(skipcount) + 1 && runcount == old(runcount)
                && maxIpts == old(maxIpts) && numIpts == old(numIpts) && launches == old(launches)
      ensures !upright && pipelineState ==>
                r != Skipped && runcount == old(runcount) + 1 && skipcount == old(skipcount)
      ensures !upright && pipelineState ==>
                var s := FrameCounts(old(fh.deviceTotal), fh.octaves, found1, found2, old(maxIpts));
                (r == Exited <==> s.None?) && (s.Some? ==> maxIpts == s.value.0 && numIpts == s.value.1)
      ensures r == Ran ==>
                launches == old(launches) + IntegralImageLaunches(width, height)
                            + (if numIpts == 0 then [] else StageLaunches(numIpts, runOrientationStage))
      ensures upright || !pipelineState ==>
                fh.launches == old(fh.launches) && fh.deviceTotal == old(fh.deviceTotal) && fh.numIpts == old(fh.numIpts)
      ensures !upright && pipelineState ==>
                fh.launches == old(fh.launches) + fh.detection
                               + (if Regrows(CountAfter(old(fh.deviceTotal), fh.octaves, found1), old(maxIpts))
                                  then fh.detection else [])
      ensures !upright && pipelineState ==>
                fh.deviceTotal == if Regrows(CountAfter(old(fh.deviceTotal), fh.octaves, found1), old(maxIpts))
                                  then FoundSum(found2, 2 * fh.octaves)
                                  else old(fh.deviceTotal) + FoundSum(found1, 2 * fh.octaves)
      ensures !upright && pipelineState ==>
                fh.numIpts == if Regrows(CountAfter(old(fh.deviceTotal), fh.octaves, found1), old(maxIpts))
                              then CountAfter(0, fh.octaves, found2)
                              else CountAfter(old(fh.deviceTotal), fh.octaves, found1)
      ensures pipelineState == old(pipelineState) && runOrientationStage == old(runOrientationStage)
    {
      if upright {
        return Exited;
      }
      if !pipelineState {
        skipcount := skipcount + 1;
        return Skipped;
      }
      runcount := runcount + 1;
      r := ProcessFrame(width, height, found1, found2);
    }

    /** The enabled pipeline on one frame: the integral image, detection,
        and, for a non-zero count, orientation and descriptors. */
    method ProcessFrame(width: nat, height: nat, found1: nat -> nat, found2: nat -> nat) returns (r: RunResult)
      requires Valid() && width <= INT32_MAX && height <= INT32_MAX
      modifies this`numIpts, this`maxIpts, this`buffers, this`launches, fh`launches, fh`deviceTotal, fh`numIpts
      ensures r != Skipped && (r != Exited ==> Valid())
      ensures var s := FrameCounts(old(fh.deviceTotal), fh.octaves, found1, found2, old(maxIpts));
              (r == Exited <==> s.None?) && (s.Some? ==> maxIpts == s.value.0 && numIpts == s.value.1)
      ensures r == Ran ==>
                launches == old(launches) + IntegralImageLaunches(width, height)
                            + (if numIpts == 0 then [] else StageLaunches(numIpts, runOrientationStage))
      ensures fh.launches == old(fh.launches) + fh.detection
                             + (if Regrows(CountAfter(old(fh.deviceTotal), fh.octaves, found1), old(maxIpts))
                                then fh.detection else [])
      ensures fh.deviceTotal == if Regrows(CountAfter(old(fh.deviceTotal), fh.octaves, found1), old(maxIpts))
                                then FoundSum(found2, 2 * fh.octaves)
                                else old(fh.deviceTotal) + FoundSum(found1, 2 * fh.octaves)
      ensures fh.numIpts == if Regrows(CountAfter(old(fh.deviceTotal), fh.octaves, found1), old(maxIpts))
                             then CountAfter(0, fh.octaves, found2)
                             else CountAfter(old(fh.deviceTotal), fh.octaves, found1)
    {
      ComputeIntegralImage(width, height);
      var ok := DetectPoints(found1, found2);
      if !ok {
        return Exited;
      }
      DescribePoints();
      return Ran;
    }

    /** retrieveDescriptors: the numIpts points read back from the device
        buffers, point k from entry k of each buffer and descriptor
        components 64k .. 64k + 63; none when the count is zero. */
    method RetrieveDescriptors(pixPos: seq<(real, real)>, scale: seq<real>, laplacian: seq<int>,
                               orientation: seq<real>, desc: seq<real>)
      returns (ipts: seq<Ipoint>)
      requires numIpts <= |pixPos| && numIpts <= |scale| && numIpts <= |laplacian|
      requires numIpts <= |orientation| && DESC_SIZE * numIpts <= |desc|
      ensures |ipts| == numIpts
      ensures forall k :: 0 <= k < numIpts ==>
                && ipts[k].x == pixPos[k].0 && ipts[k].y == pixPos[k].1
                && ipts[k].scale == scale[k] && ipts[k].laplacian == laplacian[k]
                && ipts[k].orientation == orientation[k]
                && ipts[k].descriptor == desc[DESC_SIZE * k .. DESC_SIZE * (k + 1)]
      ensures forall k :: 0 <= k < numIpts ==>
                ipts[k] == UnpackPoint(pixPos, scale, laplacian, orientation, desc, k)
    {
      ipts := [];
      if numIpts == 0 {
        return;
      }
      var i := 0;
      while i < numIpts
        invariant 0 <= i <= numIpts
        invariant |ipts| == i
        invariant forall k :: 0 <= k < i ==> ipts[k] == UnpackPoint(pixPos, scale, laplacian, orientation, desc, k)
      {
        var d: Descriptor := desc[i * 64 .. i * 64 + 64];
        var ipt := Ipoint(pixPos[i].0, pixPos[i].1, scale[i], orientation[i], laplacian[i], 0, d);
        ipts := ipts + [ipt];
        i := i + 1;
      }
    }
  }

  /** Reading back the layout the kernels write for a list of points
      recovers the list, clusterIndex aside. */
  lemma RetrieveRecoversPoints(ipts: seq<Ipoint>, k: nat)
    requires k < |ipts|
    ensures var p := UnpackPoint(PixPosOf(ipts), ScaleOf(ipts), LaplacianOf(ipts), OrientationOf(ipts), DescOf(ipts), k);
            p.x == ipts[k].x && p.y == ipts[k].y && p.scale == ipts[k].scale
            && p.orientation == ipts[k].orientation && p.laplacian == ipts[k].laplacian
            && p.descriptor == ipts[k].descriptor
  {
    UnpackOfLayout(ipts, k);
  }
}
