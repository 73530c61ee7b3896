/** The detector schedule of src/fasthessian.cpp: parameter clamping, the
    pyramid of response layers, the `filter_map` table, the dispatch of the
    determinant and non-maximum-suppression kernels, and the device point
    counter.  The kernels themselves are not modelled: a dispatch is
    recorded as a `Launch`, and the suppression kernel's effect on the
    counter is the number of points it reports, supplied by the caller. */
module FastHessianModel {
  import opened Common
  import HostUtils

  const OCTAVES: int := 5
  const INTERVALS: int := 4
  const THRES: real := 0.0001
  const SAMPLE_STEP: int := 2

  /** Work-group edge of both kernels. */
  const BLOCK_DIM: nat := 16

  // ---------------------------------------------------------------------
  // filter_map
  // ---------------------------------------------------------------------

  /** filter_map[octave][interval]: the response layer used for that
      octave and interval. */
  const FILTER_MAP: seq<seq<nat>> :=
    [[0, 1, 2, 3], [1, 3, 4, 5], [3, 5, 6, 7], [5, 7, 8, 9], [7, 9, 10, 11]]

  /** Rows are strictly increasing, every entry of row o is at most 2o+3,
      and consecutive rows share layers: a row starts with the previous
      row's second entry and continues with its last. */
  lemma FilterMapFacts(o: nat, t: nat)
    requires o < 5 && t < 4
    ensures |FILTER_MAP| == 5 && |FILTER_MAP[o]| == 4
    ensures FILTER_MAP[o][t] <= 2 * o + 3
    ensures t > 0 ==> FILTER_MAP[o][t - 1] < FILTER_MAP[o][t]
    ensures o >= 1 ==> FILTER_MAP[o][0] == FILTER_MAP[o - 1][1]
                       && FILTER_MAP[o][1] == FILTER_MAP[o - 1][3]
  {
  }

  // ---------------------------------------------------------------------
  // Constructor clamping
  // ---------------------------------------------------------------------

  function ClampOctaves(octaves: int): (r: int)
    ensures 1 <= r <= 5
    ensures 0 < octaves <= 4 ==> r == octaves
    ensures !(0 < octaves <= 4) ==> r == OCTAVES
  {
    if 0 < octaves <= 4 then octaves else OCTAVES
  }

  function ClampIntervals(intervals: int): (r: int)
    ensures 1 <= r <= 4
    ensures 0 < intervals <= 4 ==> r == intervals
    ensures !(0 < intervals <= 4) ==> r == INTERVALS
  {
    if 0 < intervals <= 4 then intervals else INTERVALS
  }

  function ClampSampleStep(step: int): (r: int)
    ensures 1 <= r <= 6
    ensures 0 < step <= 6 ==> r == step
    ensures !(0 < step <= 6) ==> r == SAMPLE_STEP
  {
    if 0 < step <= 6 then step else SAMPLE_STEP
  }

  function ClampThreshold(thres: real): (r: real)
    ensures r >= 0.0
    ensures thres >= 0.0 ==> r == thres
    ensures thres < 0.0 ==> r == THRES
  {
    if thres >= 0.0 then thres else THRES
  }

  /** Clamping an already clamped parameter set changes nothing. */
  lemma ClampIdempotent(octaves: int, intervals: int, step: int, thres: real)
    ensures ClampOctaves(ClampOctaves(octaves)) == ClampOctaves(octaves)
    ensures ClampIntervals(ClampIntervals(intervals)) == ClampIntervals(intervals)
    ensures ClampSampleStep(ClampSampleStep(step)) == ClampSampleStep(step)
    ensures ClampThreshold(ClampThreshold(thres)) == ClampThreshold(thres)
  {
  }

  // ---------------------------------------------------------------------
  // The response map
  // ---------------------------------------------------------------------

  datatype ResponseLayer = ResponseLayer(width: int, height: int, step: int, filter: int)

  /** Filter sizes of the twelve layers in build order. */
  const FILTERS: seq<int> := [9, 15, 21, 27, 39, 51, 75, 99, 147, 195, 291, 387]

  /** Power of two by which each layer's octave group shrinks the image. */
  const GROUP_SCALE: seq<int> := [1, 1, 1, 1, 2, 2, 4, 4, 8, 8, 16, 16]

  /** Layer k of a map over a `w` by `h` sample grid with step `s`. */
  function LayerAt(k: nat, w: int, h: int, s: int): ResponseLayer
    requires k < 12
  {
    ResponseLayer(CDiv(w, GROUP_SCALE[k]), CDiv(h, GROUP_SCALE[k]), s * GROUP_SCALE[k], FILTERS[k])
  }

  /** Layers first .. last - 1 of a `w` by `h` grid with step `s`. */
  function LayerRange(first: nat, last: nat, w: int, h: int, s: int): seq<ResponseLayer>
    requires first <= last <= 12
  {
    seq(last - first, k requires 0 <= k < last - first => LayerAt(first + k, w, h, s))
  }

  /** Number of layers createResponseMap pushes for an octave count: four
      for the first octave and two more for each further one, up to five. */
  function LayerCount(octaves: int): (n: nat)
    ensures n <= 12
    ensures octaves <= 0 ==> n == 0
    ensures 1 <= octaves <= 5 ==> n == 2 * octaves + 2
    ensures octaves >= 5 ==> n == 12
  {
    if octaves < 1 then 0 else 2 * Min(octaves, 5) + 2
  }

  /** The layers createResponseMap builds, as a reference definition. */
  function Layers(octaves: int, imgWidth: int, imgHeight: int, sampleStep: int): (r: seq<ResponseLayer>)
    requires sampleStep != 0
    ensures |r| == LayerCount(octaves)
  {
    var w := CDiv(imgWidth, sampleStep);
    var h := CDiv(imgHeight, sampleStep);
    seq(LayerCount(octaves), k requires 0 <= k < LayerCount(octaves) => LayerAt(k, w, h, sampleStep))
  }

  /** The response map as the constructor builds it, from the raw octave
      count and sample step: a zero step divides by zero (None). */
  function ResponseMapAsWritten(octaves: int, imgWidth: int, imgHeight: int, sampleStep: int)
    : (r: Option<seq<ResponseLayer>>)
    ensures r.None? <==> sampleStep == 0
    ensures r.Some? ==> |r.value| == LayerCount(octaves)
  {
    if sampleStep == 0 then None else Some(Layers(octaves, imgWidth, imgHeight, sampleStep))
  }

  /** The response map built from the clamped parameters. */
  function ResponseMap(octaves: int, imgWidth: int, imgHeight: int, sampleStep: int)
    : (r: seq<ResponseLayer>)
    ensures |r| == 2 * ClampOctaves(octaves) + 2
  {
    Layers(ClampOctaves(octaves), imgWidth, imgHeight, ClampSampleStep(sampleStep))
  }

  /** An octave count of 0 gives an empty as-written map, while the
      suppression loop runs the clamped five octaves and its first pass
      reads layer filter_map[0][2] = 2.  A sample step of 0 divides by
      zero. */
  lemma ResponseMapAsWrittenMismatch(imgWidth: int, imgHeight: int)
    ensures ResponseMapAsWritten(0, imgWidth, imgHeight, 2) == Some([])
    ensures ClampOctaves(0) == 5 && FILTER_MAP[0][2] == 2
    ensures ResponseMapAsWritten(5, imgWidth, imgHeight, 0).None?
  {
    assert LayerCount(0) == 0;
  }

  /** Whenever the raw octave count is positive and the raw step is in
      range, the as-written map equals the clamped one. */
  lemma ResponseMapAgreesInRange(octaves: int, imgWidth: int, imgHeight: int, sampleStep: int)
    requires octaves >= 1 && 1 <= sampleStep <= 6
    ensures ResponseMapAsWritten(octaves, imgWidth, imgHeight, sampleStep)
            == Some(ResponseMap(octaves, imgWidth, imgHeight, sampleStep))
  {
    assert LayerCount(octaves) == LayerCount(ClampOctaves(octaves));
  }

  /** The dispatches of one getIpoints call on the response map built from
      the clamped parameters. */
  ghost function ClampedDetection(octaves: int, imgWidth: nat, imgHeight: nat, sampleStep: int): seq<Launch>
    requires imgWidth <= INT32_MAX && imgHeight <= INT32_MAX
  {
    ClampedMapInRange(octaves, imgWidth, imgHeight, sampleStep);
    DetectionLaunches(ResponseMap(octaves, imgWidth, imgHeight, sampleStep), ClampOctaves(octaves))
  }

  /** Filter sizes grow strictly with the layer index. */
  lemma {:induction false} FiltersIncreasing(a: nat, b: nat)
    requires a < b < 12
    ensures FILTERS[a] < FILTERS[b]
    decreases b - a
  {
    if a + 1 < b {
      FiltersIncreasing(a + 1, b);
    }
  }

  /** A layer of octave group g (scale 2^g) has width (imgWidth/s)/2^g,
      height (imgHeight/s)/2^g and step s*2^g. */
  lemma LayerGeometry(octaves: int, imgWidth: nat, imgHeight: nat, sampleStep: int, k: nat)
    requires k < 2 * ClampOctaves(octaves) + 2
    ensures var layer := ResponseMap(octaves, imgWidth, imgHeight, sampleStep)[k];
            var s := ClampSampleStep(sampleStep);
            && layer.width == (imgWidth / s) / GROUP_SCALE[k]
            && layer.height == (imgHeight / s) / GROUP_SCALE[k]
            && layer.step == s * GROUP_SCALE[k]
            && layer.filter == FILTERS[k]
            && 0 <= layer.width <= imgWidth && 0 <= layer.height <= imgHeight
  {
    var s := ClampSampleStep(sampleStep);
    var w := CDiv(imgWidth, s);
    assert w == imgWidth / s;
    assert CDiv(imgHeight, s) == imgHeight / s;
    assert GROUP_SCALE[k] >= 1;
    DivShrinks(imgWidth, s);
    DivShrinks(imgHeight, s);
    DivShrinks(imgWidth / s, GROUP_SCALE[k]);
    DivShrinks(imgHeight / s, GROUP_SCALE[k]);
  }

  lemma DivShrinks(n: nat, d: int)
    requires d >= 1
    ensures 0 <= n / d <= n
  {
    var q := n / d;
    assert n == q * d + n % d;
    assert q * d == q + q * (d - 1);
  }

  // ---------------------------------------------------------------------
  // Kernel dispatches
  // ---------------------------------------------------------------------

  /** Layers whose sizes fit the unsigned work-size arithmetic. */
  predicate LayersInRange(rmap: seq<ResponseLayer>) {
    forall k :: 0 <= k < |rmap| ==> 0 <= rmap[k].width <= INT32_MAX && 0 <= rmap[k].height <= INT32_MAX
  }

  /** The BuildHessianDet dispatch for layer k. */
  function DetLaunch(rmap: seq<ResponseLayer>, k: nat): (l: Launch)
    requires k < |rmap| && LayersInRange(rmap)
  {
    Launch("BuildHessianDet",
           [HostUtils.RoundUp(rmap[k].width, BLOCK_DIM), HostUtils.RoundUp(rmap[k].height, BLOCK_DIM)],
           [BLOCK_DIM, BLOCK_DIM], k, [k])
  }

  /** One BuildHessianDet dispatch per layer, in layer order. */
  function DetLaunches(rmap: seq<ResponseLayer>): (r: seq<Launch>)
    requires LayersInRange(rmap)
    ensures |r| == |rmap|
    ensures forall k :: 0 <= k < |rmap| ==> r[k] == DetLaunch(rmap, k)
  {
    seq(|rmap|, k requires 0 <= k < |rmap| => DetLaunch(rmap, k))
  }

  /** A map over which every suppression pass of `octaves` octaves finds
      its three layers. */
  predicate CoversOctaves(rmap: seq<ResponseLayer>, octaves: int) {
    1 <= octaves <= 5 && |rmap| == 2 * octaves + 2
  }

  /** The NonMaxSupression dispatch of octave o, interval i: bottom, middle
      and top layers are filter_map[o][i], [i+1] and [i+2], and the grid
      covers the middle layer. */
  function NmsLaunch(rmap: seq<ResponseLayer>, o: nat, i: nat): (l: Launch)
    requires o < 5 && i <= 1 && 2 * o + 3 < |rmap| && LayersInRange(rmap)
  {
    FilterMapFacts(o, i + 2);
    var m := rmap[FILTER_MAP[o][i + 1]];
    Launch("NonMaxSupression",
           [HostUtils.RoundUp(m.width, BLOCK_DIM), HostUtils.RoundUp(m.height, BLOCK_DIM)],
           [BLOCK_DIM, BLOCK_DIM], o * 2 + i,
           [FILTER_MAP[o][i], FILTER_MAP[o][i + 1], FILTER_MAP[o][i + 2]])
  }

  /** The two suppression passes of octave o, interval 0 then 1. */
  function NmsRow(rmap: seq<ResponseLayer>, o: nat): (r: seq<Launch>)
    requires o < 5 && 2 * o + 3 < |rmap| && LayersInRange(rmap)
  {
    [NmsLaunch(rmap, o, 0), NmsLaunch(rmap, o, 1)]
  }

  /** The suppression passes of the first `octaves` octaves, in loop
      order. */
  function NmsLaunches(rmap: seq<ResponseLayer>, octaves: nat): (r: seq<Launch>)
    requires octaves <= 5 && 2 * octaves + 2 <= |rmap| && LayersInRange(rmap)
    ensures |r| == 2 * octaves
  {
    if octaves == 0 then [] else NmsLaunches(rmap, octaves - 1) + NmsRow(rmap, octaves - 1)
  }

  /** The dispatches of one getIpoints call: a determinant per layer, then
      the suppression passes. */
  function DetectionLaunches(rmap: seq<ResponseLayer>, octaves: nat): seq<Launch>
    requires octaves <= 5 && 2 * octaves + 2 <= |rmap| && LayersInRange(rmap)
  {
    DetLaunches(rmap) + NmsLaunches(rmap, octaves)
  }

  /** A log that grew by the determinant dispatches and then by the
      suppression passes grew by one detection's dispatches. */
  lemma AppendDetection(before: seq<Launch>, mid: seq<Launch>, after: seq<Launch>,
                        rmap: seq<ResponseLayer>, octaves: nat)
    requires octaves <= 5 && 2 * octaves + 2 <= |rmap| && LayersInRange(rmap)
    requires mid == before + DetLaunches(rmap) && after == mid + NmsLaunches(rmap, octaves)
    ensures after == before + DetectionLaunches(rmap, octaves)
  {
  }

  /** Every layer of a clamped map over an image of int size has int
      size. */
  lemma ClampedMapInRange(octaves: int, imgWidth: nat, imgHeight: nat, sampleStep: int)
    requires imgWidth <= INT32_MAX && imgHeight <= INT32_MAX
    ensures LayersInRange(ResponseMap(octaves, imgWidth, imgHeight, sampleStep))
  {
    var rmap := ResponseMap(octaves, imgWidth, imgHeight, sampleStep);
    forall k | 0 <= k < |rmap|
      ensures 0 <= rmap[k].width <= INT32_MAX && 0 <= rmap[k].height <= INT32_MAX
    {
      LayerGeometry(octaves, imgWidth, imgHeight, sampleStep, k);
    }
  }

  /** A rounded-up size is a whole number of work groups covering the
      size. */
  lemma GroupsCover(size: nat)
    requires size <= INT32_MAX
    ensures HostUtils.RoundUp(size, BLOCK_DIM) % BLOCK_DIM == 0
    ensures size <= HostUtils.RoundUp(size, BLOCK_DIM) < size + BLOCK_DIM
  {
    HostUtils.RoundUpIsNextMultiple(size, BLOCK_DIM);
    ExactMultipleMod(size / BLOCK_DIM + (if size % BLOCK_DIM == 0 then 0 else 1));
  }

  /** Every suppression pass over a clamped map reads three existing layers
      with strictly growing filter sizes, its identifier is its position
      in the schedule, and its grid is a whole number of work groups that
      covers the middle layer. */
  lemma NmsPassesWellFormed(octaves: int, imgWidth: nat, imgHeight: nat, sampleStep: int, p: nat)
    requires imgWidth <= INT32_MAX && imgHeight <= INT32_MAX
    requires p < 2 * ClampOctaves(octaves)
    ensures LayersInRange(ResponseMap(octaves, imgWidth, imgHeight, sampleStep))
    ensures var rmap := ResponseMap(octaves, imgWidth, imgHeight, sampleStep);
            var l := NmsLaunches(rmap, ClampOctaves(octaves))[p];
            && l.id == p
            && |l.layers| == 3 && |l.global| == 2
            && (forall t :: 0 <= t < 3 ==> 0 <= l.layers[t] < |rmap|)
            && rmap[l.layers[0]].filter < rmap[l.layers[1]].filter < rmap[l.layers[2]].filter
            && l.global[0] % BLOCK_DIM == 0 && l.global[1] % BLOCK_DIM == 0
            && rmap[l.layers[1]].width <= l.global[0] < rmap[l.layers[1]].width + BLOCK_DIM
            && rmap[l.layers[1]].height <= l.global[1] < rmap[l.layers[1]].height + BLOCK_DIM
  {
    var n := ClampOctaves(octaves);
    var rmap := ResponseMap(octaves, imgWidth, imgHeight, sampleStep);
    ClampedMapInRange(octaves, imgWidth, imgHeight, sampleStep);
    NmsLaunchesAt(rmap, n, p);
    NmsLaunchLayers(rmap, octaves, imgWidth, imgHeight, sampleStep, p / 2, p % 2);
    NmsLaunchGrid(rmap, p / 2, p % 2);
  }

  /** The three layers of the pass of octave o, interval i exist and have
      strictly growing filter sizes. */
  lemma NmsLaunchLayers(rmap: seq<ResponseLayer>, octaves: int, imgWidth: nat, imgHeight: nat,
                        sampleStep: int, o: nat, i: nat)
    requires rmap == ResponseMap(octaves, imgWidth, imgHeight, sampleStep) && LayersInRange(rmap)
    requires o < ClampOctaves(octaves) && i <= 1
    ensures var l := NmsLaunch(rmap, o, i);
            && |l.layers| == 3
            && (forall t :: 0 <= t < 3 ==> 0 <= l.layers[t] < |rmap|)
            && rmap[l.layers[0]].filter < rmap[l.layers[1]].filter < rmap[l.layers[2]].filter
  {
    FilterMapFacts(o, i + 1);
    FilterMapFacts(o, i + 2);
    var b := FILTER_MAP[o][i];
    var m := FILTER_MAP[o][i + 1];
    var t := FILTER_MAP[o][i + 2];
    LayerGeometry(octaves, imgWidth, imgHeight, sampleStep, b);
    LayerGeometry(octaves, imgWidth, imgHeight, sampleStep, m);
    LayerGeometry(octaves, imgWidth, imgHeight, sampleStep, t);
    FiltersIncreasing(b, m);
    FiltersIncreasing(m, t);
  }

  /** The grid of a suppression pass is a whole number of work groups
      covering its middle layer. */
  lemma NmsLaunchGrid(rmap: seq<ResponseLayer>, o: nat, i: nat)
    requires o < 5 && i <= 1 && 2 * o + 3 < |rmap| && LayersInRange(rmap)
    ensures var l := NmsLaunch(rmap, o, i);
            var m := rmap[FILTER_MAP[o][i + 1]];
            && |l.global| == 2 && l.layers[1] == FILTER_MAP[o][i + 1]
            && l.global[0] % BLOCK_DIM == 0 && l.global[1] % BLOCK_DIM == 0
            && m.width <= l.global[0] < m.width + BLOCK_DIM
            && m.height <= l.global[1] < m.height + BLOCK_DIM
  {
    FilterMapFacts(o, i + 1);
    var m := rmap[FILTER_MAP[o][i + 1]];
    GroupsCover(m.width);
    GroupsCover(m.height);
  }

  lemma ExactMultipleMod(q: int)
    ensures (q * BLOCK_DIM) % BLOCK_DIM == 0
  {
  }

  /** Pass p of the schedule is the pass of octave p/2, interval p%2. */
  lemma {:induction false} NmsLaunchesAt(rmap: seq<ResponseLayer>, octaves: nat, p: nat)
    requires octaves <= 5 && 2 * octaves + 2 <= |rmap| && LayersInRange(rmap)
    requires p < 2 * octaves
    ensures 2 * (p / 2) + 3 < |rmap|
    ensures NmsLaunches(rmap, octaves)[p] == NmsLaunch(rmap, p / 2, p % 2)
  {
    if p < 2 * octaves - 2 {
      NmsLaunchesAt(rmap, octaves - 1, p);
    }
  }

  /** Sum of the first n per-pass point counts. */
  function FoundSum(found: nat -> nat, n: nat): nat
  {
    if n == 0 then 0 else FoundSum(found, n - 1) + found(n - 1)
  }

  /** The count getIpoints reads back when the device counter starts at
      `total` and the suppression passes of `octaves` octaves add `found`:
      the int32 the counter then holds. */
  function CountAfter(total: int, octaves: nat, found: nat -> nat): int {
    WrapInt32(total + FoundSum(found, 2 * octaves))
  }

  /** The int32 device counter after atomic adds of `counts`, one add at a
      time, each wrapping. */
  function CounterAfterAdds(counter: int, counts: seq<nat>): (r: int)
    decreases counts
    requires IsInt32(counter)
    ensures IsInt32(r)
  {
    if counts == [] then counter
    else CounterAfterAdds(WrapInt32(counter + counts[0]), counts[1..])
  }

  function Sum(counts: seq<nat>): nat
  {
    if counts == [] then 0 else counts[0] + Sum(counts[1..])
  }

  /** Wrapping after every add leaves the same int32 value as wrapping the
      unbounded total once, so the counter read back is WrapInt32 of the
      total of the passes' counts. */
  lemma {:induction false} AtomicAddsWrapOnce(counter: int, counts: seq<nat>)
    decreases counts
    requires IsInt32(counter)
    ensures CounterAfterAdds(counter, counts) == WrapInt32(counter + Sum(counts))
  {
    if counts != [] {
      AtomicAddsWrapOnce(WrapInt32(counter + counts[0]), counts[1..]);
      WrapInt32AddWrapped(counter + counts[0], Sum(counts[1..]));
    }
  }

  /** Outcome of getIpoints: the count read back, or the abort on a
      negative count. */
  datatype Count = Count(n: nat) | InvalidCount

  // ---------------------------------------------------------------------
  // The detector
  // ---------------------------------------------------------------------

  class FastHessian {
    var octaves: int
    var intervals: int
    var sampleStep: int
    var thres: real
    /** The host copy of the point count. */
    var numIpts: int
    /** The total of the atomic adds to the int32 point counter in device
        memory (d_ipt_count) since it was last zeroed: the counter holds
        WrapInt32(deviceTotal) (AtomicAddsWrapOnce). */
    var deviceTotal: int
    var responseMap: seq<ResponseLayer>
    /** Kernel dispatches in enqueue order. */
    var launches: seq<Launch>
    ghost var imageWidth: nat
    ghost var imageHeight: nat
    /** The dispatches one getIpoints call enqueues; they depend only on
        the response map and the octave count, both fixed at construction. */
    ghost var detection: seq<Launch>

    ghost predicate Valid()
      reads this`octaves, this`intervals, this`sampleStep, this`thres
      reads this`imageWidth, this`imageHeight, this`responseMap, this`detection
    {
      && 1 <= octaves <= 5 && 1 <= intervals <= 4 && 1 <= sampleStep <= 6 && thres >= 0.0
      && imageWidth <= INT32_MAX && imageHeight <= INT32_MAX
      && responseMap == ResponseMap(octaves, imageWidth, imageHeight, sampleStep)
      && LayersInRange(responseMap)
      && detection == DetectionLaunches(responseMap, octaves)
    }

    /** What the dispatch methods need: every layer of int size, the layers
        every suppression pass reads, and `detection` the dispatches of one
        getIpoints call. */
    ghost predicate Dispatchable()
      reads this`responseMap, this`octaves, this`detection
    {
      && LayersInRange(responseMap) && CoversOctaves(responseMap, octaves)
      && detection == DetectionLaunches(responseMap, octaves)
    }

    /** The constructor: clamps the parameters, zeroes the counter and
        builds the response map from the clamped octave count and step. */
    constructor (iHeight: nat, iWidth: nat, octaves: int, intervals: int, sampleStep: int, thres: real)
      requires iHeight <= INT32_MAX && iWidth <= INT32_MAX
      ensures Valid()
      ensures this.octaves == ClampOctaves(octaves) && this.intervals == ClampIntervals(intervals)
      ensures this.sampleStep == ClampSampleStep(sampleStep) && this.thres == ClampThreshold(thres)
      ensures numIpts == 0 && deviceTotal == 0 && launches == []
      ensures responseMap == ResponseMap(octaves, iWidth, iHeight, sampleStep)
      ensures imageWidth == iWidth && imageHeight == iHeight
    {
      this.octaves := ClampOctaves(octaves);
      this.intervals := ClampIntervals(intervals);
      this.sampleStep := ClampSampleStep(sampleStep);
      this.thres := ClampThreshold(thres);
      numIpts := 0;
      deviceTotal := 0;
      launches := [];
      responseMap := [];
      imageWidth := iWidth;
      imageHeight := iHeight;
      new;
      CreateResponseMap(this.octaves, iWidth, iHeight, this.sampleStep);
      ClampIdempotent(octaves, intervals, sampleStep, thres);
      ClampedMapInRange(octaves, iWidth, iHeight, sampleStep);
      detection := ClampedDetection(octaves, iWidth, iHeight, sampleStep);
    }

    /** createResponseMap: pushes four layers for the first octave and two
        for each further one, up to five octaves. */
    method CreateResponseMap(nOctaves: int, imgWidth: int, imgHeight: int, step: int)
      requires step != 0
      modifies this`responseMap
      ensures responseMap == old(responseMap) + Layers(nOctaves, imgWidth, imgHeight, step)
    {
      var w := CDiv(imgWidth, step);
      var h := CDiv(imgHeight, step);
      var s := step;
      ghost var built := Layers(nOctaves, imgWidth, imgHeight, step);
      var group := 0;
      var pushed := 0;
      // one group per octave: filters of group 0 are layers 0..3, of
      // group g >= 1 layers 2g+2 and 2g+3
      while group < 5 && group < nOctaves
        invariant 0 <= group <= 5
        invariant pushed == (if group == 0 then 0 else 2 * group + 2)
        invariant pushed <= |built|
        invariant responseMap == old(responseMap) + built[..pushed]
      {
        var first := if group == 0 then 0 else 2 * group + 2;
        var last := 2 * group + 4;
        PushLayers(first, last, w, h, s);
        assert built[first..last] == LayerRange(first, last, w, h, s);
        assert built[..last] == built[..pushed] + built[first..last];
        pushed := last;
        group := group + 1;
      }
      assert built[..pushed] == built;
    }

    /** The inner loop of createResponseMap: layers first .. last - 1 of
        a `w` by `h` grid with step `s`, in order. */
    method PushLayers(first: nat, last: nat, w: int, h: int, s: int)
      requires first <= last <= 12
      modifies this`responseMap
      ensures responseMap == old(responseMap) + LayerRange(first, last, w, h, s)
    {
      ghost var layers := LayerRange(first, last, w, h, s);
      var pushed := first;
      while pushed < last
        invariant first <= pushed <= last
        invariant responseMap == old(responseMap) + layers[..pushed - first]
      {
        var scale := GROUP_SCALE[pushed];
        responseMap := responseMap + [ResponseLayer(CDiv(w, scale), CDiv(h, scale), s * scale, FILTERS[pushed])];
        assert layers[..pushed + 1 - first] == layers[..pushed - first] + [LayerAt(pushed, w, h, s)];
        pushed := pushed + 1;
      }
      assert layers[..last - first] == layers;
    }

    /** computeHessianDet: one BuildHessianDet dispatch per layer, over the
        layer rounded up to whole 16x16 work groups. */
    method ComputeHessianDet()
      requires LayersInRange(responseMap)
      modifies this`launches
      ensures launches == old(launches) + DetLaunches(responseMap)
    {
      var i := 0;
      while i < |responseMap|
        invariant 0 <= i <= |responseMap|
        invariant launches == old(launches) + DetLaunches(responseMap)[..i]
      {
        var layer := responseMap[i];
        var global := [HostUtils.RoundUp(layer.width, BLOCK_DIM), HostUtils.RoundUp(layer.height, BLOCK_DIM)];
        launches := launches + [Launch("BuildHessianDet", global, [BLOCK_DIM, BLOCK_DIM], i, [i])];
        assert DetLaunches(responseMap)[..i + 1] == DetLaunches(responseMap)[..i] + [DetLaunch(responseMap, i)];
        i := i + 1;
      }
      assert DetLaunches(responseMap)[..i] == DetLaunches(responseMap);
    }

    /** One pass of the selectIpoints loop: the NonMaxSupression dispatch
        of octave o, interval i, and the atomic add of the `found` points
        the pass reports. */
    method SuppressPass(o: nat, i: nat, found: nat)
      requires o < 5 && i <= 1 && 2 * o + 3 < |responseMap| && LayersInRange(responseMap)
      modifies this`launches, this`deviceTotal
      ensures launches == old(launches) + [NmsLaunch(responseMap, o, i)]
      ensures deviceTotal == old(deviceTotal) + found
    {
      FilterMapFacts(o, i + 2);
      var b := FILTER_MAP[o][i];
      var m := FILTER_MAP[o][i + 1];
      var t := FILTER_MAP[o][i + 2];
      var mLayer := responseMap[m];
      var global := [HostUtils.RoundUp(mLayer.width, BLOCK_DIM), HostUtils.RoundUp(mLayer.height, BLOCK_DIM)];
      launches := launches + [Launch("NonMaxSupression", global, [BLOCK_DIM, BLOCK_DIM], o * 2 + i, [b, m, t])];
      deviceTotal := deviceTotal + found;
    }

    /** The body of the selectIpoints octave loop: the inner loop over the
        two intervals of octave o. */
    method SuppressOctave(o: nat, found: nat -> nat)
      requires o < 5 && 2 * o + 3 < |responseMap| && LayersInRange(responseMap)
      modifies this`launches, this`deviceTotal
      ensures launches == old(launches) + NmsRow(responseMap, o)
      ensures deviceTotal == old(deviceTotal) + found(2 * o) + found(2 * o + 1)
    {
      var i := 0;
      while i <= 1
        invariant 0 <= i <= 2
        invariant launches == old(launches) + NmsRow(responseMap, o)[..i]
        invariant deviceTotal == old(deviceTotal) + (if i == 0 then 0 else found(2 * o))
                                                  + (if i == 2 then found(2 * o + 1) else 0)
      {
        SuppressPass(o, i, found(o * 2 + i));
        assert NmsRow(responseMap, o)[..i + 1] == NmsRow(responseMap, o)[..i] + [NmsLaunch(responseMap, o, i)];
        i := i + 1;
      }
      assert NmsRow(responseMap, o)[..2] == NmsRow(responseMap, o);
    }

    /** selectIpoints: for each octave, two suppression passes over the
        (bottom, middle, top) layers of filter_map; pass 2o+i reports
        found(2o+i) points. */
    method SelectIpoints(found: nat -> nat)
      requires LayersInRange(responseMap) && CoversOctaves(responseMap, octaves)
      modifies this`launches, this`deviceTotal
      ensures launches == old(launches) + NmsLaunches(responseMap, octaves)
      ensures deviceTotal == old(deviceTotal) + FoundSum(found, 2 * octaves)
    {
      var o := 0;
      while o < octaves
        invariant 0 <= o <= octaves
        invariant launches == old(launches) + NmsLaunches(responseMap, o)
        invariant deviceTotal == old(deviceTotal) + FoundSum(found, 2 * o)
      {
        SuppressOctave(o, found);
        assert FoundSum(found, 2 * o + 2) == FoundSum(found, 2 * o) + found(2 * o) + found(2 * o + 1);
        assert NmsLaunches(responseMap, o + 1) == NmsLaunches(responseMap, o) + NmsRow(responseMap, o);
        o := o + 1;
      }
    }

    /** getIpoints: the determinant and suppression passes, then the int32
        counter is read back; a negative count ends the program. */
    method GetIpoints(found: nat -> nat) returns (r: Count)
      requires Dispatchable()
      modifies this`launches, this`deviceTotal, this`numIpts
      ensures launches == old(launches) + detection
      ensures deviceTotal == old(deviceTotal) + FoundSum(found, 2 * octaves)
      ensures numIpts == WrapInt32(deviceTotal) == CountAfter(old(deviceTotal), octaves, found)
      ensures r == if numIpts < 0 then InvalidCount else Count(numIpts)
    {
      ghost var before := launches;
      ComputeHessianDet();
      ghost var mid := launches;
      SelectIpoints(found);
      AppendDetection(before, mid, launches, responseMap, octaves);
      numIpts := WrapInt32(deviceTotal);
      if numIpts < 0 {
        return InvalidCount;
      }
      return Count(numIpts);
    }

    /** reset: writes 0 to the device counter. */
    method Reset()
      modifies this`deviceTotal
      ensures deviceTotal == 0
    {
      deviceTotal := 0;
    }
  }

  /** After a reset the count read back is exactly what the passes report,
      unless the int32 counter overflows; only an overflow makes it
      negative. */
  lemma CountAfterReset(total: nat)
    ensures total <= INT32_MAX ==> WrapInt32(0 + total) == total
    ensures WrapInt32(0 + total) < 0 ==> total > INT32_MAX
  {
  }

  /** The counter does wrap: 2^31 reported points read back as INT_MIN,
      which getIpoints rejects. */
  lemma CounterCanWrapNegative()
    ensures WrapInt32(0 + 0x8000_0000) == INT32_MIN
  {
  }
}
