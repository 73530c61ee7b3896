/** Host utilities of surf_src/utils.cpp: work-size rounding, the
    interest-point comparator and verifier, the command-line scanner, string
    concatenation and the "using images" flag. */
module HostUtils {
  import opened Common
  import opened Features
  import Sorting

  // ---------------------------------------------------------------------
  // roundUp (unsigned 32-bit arithmetic)
  // ---------------------------------------------------------------------

  /** `roundUp(value, multiple)` on `unsigned int`: the addition wraps
      modulo 2^32. */
  function RoundUp(value: nat, multiple: nat): (r: nat)
    requires value < UINT32_LIMIT && 0 < multiple < UINT32_LIMIT
    ensures r < UINT32_LIMIT
  {
    var remainder := value % multiple;
    if remainder != 0 then (value + (multiple - remainder)) % UINT32_LIMIT else value
  }

  /** Without wrap-around the result is the least multiple of `multiple`
      that is not below `value`. */
  lemma RoundUpIsNextMultiple(value: nat, multiple: nat)
    requires 0 < multiple < UINT32_LIMIT && value <= UINT32_LIMIT - multiple
    ensures RoundUp(value, multiple) ==
              (value / multiple + (if value % multiple == 0 then 0 else 1)) * multiple
    ensures value <= RoundUp(value, multiple) < value + multiple
    ensures RoundUp(value, multiple) == value <==> value % multiple == 0
  {
    var q := value / multiple;
    var rem := value % multiple;
    assert value == q * multiple + rem;
    if rem != 0 {
      var r := value + (multiple - rem);
      assert r == (q + 1) * multiple;
      assert r < UINT32_LIMIT;
    }
  }

  /** The addition is unsigned and wraps: rounding the largest 32-bit value
      up to a multiple of 16 yields 0. */
  lemma RoundUpWrapsAtTop()
    ensures RoundUp(UINT32_LIMIT - 1, 16) == 0
  {
  }

  // ---------------------------------------------------------------------
  // compareIptFunc and compareIpts
  // ---------------------------------------------------------------------

  /** `compareIptFunc` as written: order by x, then by y, and true when
      both coordinates are equal. */
  predicate CompareIptFunc(a: Ipoint, b: Ipoint) {
    if a.x < b.x then true
    else if a.x > b.x then false
    else a.y <= b.y
  }

  /** The strict ordering std::sort requires: by x, then by y. */
  predicate IptLess(a: Ipoint, b: Ipoint) {
    a.x < b.x || (a.x == b.x && a.y < b.y)
  }

  /** The as-written comparator is the reflexive complement of the strict
      order: it answers "not greater", which std::sort does not accept. */
  lemma {:induction false} CompareIptFuncIsNotGreater(a: Ipoint, b: Ipoint)
    ensures CompareIptFunc(a, b) <==> !IptLess(b, a)
    ensures CompareIptFunc(a, a) && !IptLess(a, a)
  {
  }

  /** IptLess is a strict weak ordering (irreflexive and transitive, and
      incomparability is transitive), so sorting with it is well defined. */
  lemma IptLessStrictWeakOrder(a: Ipoint, b: Ipoint, c: Ipoint)
    ensures !IptLess(a, a)
    ensures IptLess(a, b) && IptLess(b, c) ==> IptLess(a, c)
    ensures !IptLess(a, b) && !IptLess(b, a) && !IptLess(b, c) && !IptLess(c, b) ==>
              !IptLess(a, c) && !IptLess(c, a)
  {
  }

  /** std::sort is handed the as-written comparator.  As a "not greater"
      relation it is a total preorder, which is what the stable sort of
      this model expects; the order of points with equal (x, y) is the
      one thing std::sort leaves open. */
  lemma CompareIptFuncTotalPreorder()
    ensures Sorting.TotalPreorder(CompareIptFunc)
  {
  }

  /** The order compareIpts leaves a point list in. */
  function SortIpts(s: seq<Ipoint>): (r: seq<Ipoint>)
    ensures multiset(r) == multiset(s)
    ensures forall i, j :: 0 <= i < j < |r| ==> !IptLess(r[j], r[i])
  {
    CompareIptFuncTotalPreorder();
    Sorting.SortSorted(CompareIptFunc, s);
    Sorting.Sort(CompareIptFunc, s)
  }

  const TOLERANCE: real := 0.1

  predicate Near(a: real, b: real) {
    AbsReal(a - b) <= TOLERANCE
  }

  /** The per-point test of compareIpts as written: x, orientation, scale
      and the 64 descriptor components within 0.1 and equal laplacians.
      The y coordinate is never compared. */
  predicate IptCloseAsWritten(a: Ipoint, b: Ipoint) {
    && Near(a.x, b.x)
    && Near(a.orientation, b.orientation)
    && Near(a.scale, b.scale)
    && a.laplacian == b.laplacian
    && forall j :: 0 <= j < DESC_SIZE ==> Near(a.descriptor[j], b.descriptor[j])
  }

  /** The per-point test with y compared as well. */
  predicate IptClose(a: Ipoint, b: Ipoint) {
    && Near(a.x, b.x)
    && Near(a.y, b.y)
    && Near(a.orientation, b.orientation)
    && Near(a.scale, b.scale)
    && a.laplacian == b.laplacian
    && forall j :: 0 <= j < DESC_SIZE ==> Near(a.descriptor[j], b.descriptor[j])
  }

  /** Two points 100 pixels apart vertically pass the as-written test. */
  lemma IptCloseAsWrittenIgnoresY()
    ensures var a := Ipoint(1.0, 0.0, 2.0, 0.5, 1, 0, seq(64, _ => 0.0));
            var b := a.(y := 100.0);
            IptCloseAsWritten(a, b) && !IptClose(a, b)
  {
  }

  /** The corrected test implies the as-written one and bounds y. */
  lemma IptCloseBoundsEveryField(a: Ipoint, b: Ipoint)
    requires IptClose(a, b)
    ensures IptCloseAsWritten(a, b)
    ensures -TOLERANCE <= a.y - b.y <= TOLERANCE
  {
  }

  predicate AllClose(r: seq<Ipoint>, o: seq<Ipoint>)
    requires |r| == |o|
  {
    forall i :: 0 <= i < |r| ==> IptClose(r[i], o[i])
  }

  /** Decides the per-point test, descriptor component by component. */
  method PointsClose(a: Ipoint, b: Ipoint) returns (ok: bool)
    ensures ok == IptClose(a, b)
  {
    if !Near(a.x, b.x) || !Near(a.y, b.y) || !Near(a.orientation, b.orientation)
       || !Near(a.scale, b.scale) || a.laplacian != b.laplacian {
      return false;
    }
    var j := 0;
    while j < DESC_SIZE
      invariant 0 <= j <= DESC_SIZE
      invariant forall k :: 0 <= k < j ==> Near(a.descriptor[k], b.descriptor[k])
    {
      if !Near(a.descriptor[j], b.descriptor[j]) {
        return false;
      }
      j := j + 1;
    }
    return true;
  }

  /** The comparison loop of compareIpts over two equally long lists:
      true exactly when every pair of points at the same position passes. */
  method AllPointsClose(r: seq<Ipoint>, o: seq<Ipoint>) returns (ok: bool)
    requires |r| == |o|
    ensures ok <==> AllClose(r, o)
  {
    var i := 0;
    while i < |r|
      invariant 0 <= i <= |r|
      invariant forall k :: 0 <= k < i ==> IptClose(r[k], o[k])
    {
      var same := PointsClose(r[i], o[i]);
      if !same {
        return false;
      }
      i := i + 1;
    }
    return true;
  }

  /** compareIpts: vectors of different sizes never match; otherwise both
      are sorted in place and compared position by position. */
  method CompareIpts(refIpts: array<Ipoint>, oclIpts: array<Ipoint>) returns (ok: bool)
    modifies refIpts, oclIpts
    ensures refIpts.Length != oclIpts.Length ==>
              !ok && unchanged(refIpts) && unchanged(oclIpts)
    ensures refIpts.Length == oclIpts.Length ==>
              && refIpts[..] == SortIpts(old(refIpts[..]))
              && oclIpts[..] == SortIpts(old(oclIpts[..]))
              && (ok <==> AllClose(refIpts[..], oclIpts[..]))
  {
    if refIpts.Length != oclIpts.Length {
      return false;
    }
    SortInPlace(refIpts);
    SortInPlace(oclIpts);
    if refIpts == oclIpts {
      SortIptsIdempotent(old(refIpts[..]));
    }
    ok := AllPointsClose(refIpts[..], oclIpts[..]);
  }

  /** The effect of `std::sort(v.begin(), v.end(), cmp)` on a vector. */
  method SortInPlace(a: array<Ipoint>)
    modifies a
    ensures a[..] == SortIpts(old(a[..]))
  {
    var sorted := SortIpts(a[..]);
    forall k | 0 <= k < a.Length {
      a[k] := sorted[k];
    }
  }

  /** Sorting an already sorted list changes nothing. */
  lemma SortIptsIdempotent(s: seq<Ipoint>)
    ensures SortIpts(SortIpts(s)) == SortIpts(s)
  {
    Sorting.SortOfSorted(CompareIptFunc, SortIpts(s));
  }

  // ---------------------------------------------------------------------
  // parseArguments
  // ---------------------------------------------------------------------

  /** The values parseArguments writes through its out-parameters, plus the
      images flag it may clear. */
  datatype Args = Args(
    input: Option<string>,
    events: Option<string>,
    ipts: Option<string>,
    devicePref: char,
    verify: bool,
    usingImages: bool)

  datatype ScanResult = Scanned(args: Args) | UsageError(option: string)

  predicate TakesValue(t: string) {
    t == "-d" || t == "-e" || t == "-i" || t == "-l"
  }

  /** First character of a C string (the terminator for an empty one). */
  function FirstChar(s: string): char {
    if s == [] then '\0' else s[0]
  }

  /** The out-parameter a value option `t` followed by `v` writes. */
  function WithValue(a: Args, t: string, v: string): Args {
    if t == "-d" then a.(devicePref := FirstChar(v))
    else if t == "-e" then a.(events := Some(v))
    else if t == "-i" then a.(input := Some(v))
    else a.(ipts := Some(v))
  }

  /** The scan from index `i` on, as a reference definition. */
  function Scan(argv: seq<string>, i: nat, a: Args): ScanResult
    decreases |argv| - i
  {
    if i >= |argv| then Scanned(a)
    else
      var t := argv[i];
      if TakesValue(t) then
        if i == |argv| - 1 then UsageError(t)
        else
          Scan(argv, i + 2, WithValue(a, t, argv[i + 1]))
      else if t == "-n" then Scan(argv, i + 1, a.(usingImages := false))
      else if t == "-v" then Scan(argv, i + 1, a.(verify := true))
      else Scan(argv, i + 1, a)
  }

  /** A scan that ends without error ends exactly at the end of argv, so
      whatever follows is scanned from its own start. */
  lemma {:induction false} ScanAppend(argv: seq<string>, tail: seq<string>, i: nat, a: Args)
    requires i <= |argv|
    requires Scan(argv, i, a).Scanned?
    ensures Scan(argv + tail, i, a) == Scan(argv + tail, |argv|, Scan(argv, i, a).args)
    decreases |argv| - i
  {
    var all := argv + tail;
    if i == |argv| {
    } else {
      var t := argv[i];
      assert all[i] == t;
      if TakesValue(t) {
        assert i < |argv| - 1;
        assert all[i + 1] == argv[i + 1];
        ScanAppend(argv, tail, i + 2, WithValue(a, t, argv[i + 1]));
      } else if t == "-n" {
        ScanAppend(argv, tail, i + 1, a.(usingImages := false));
      } else if t == "-v" {
        ScanAppend(argv, tail, i + 1, a.(verify := true));
      } else {
        ScanAppend(argv, tail, i + 1, a);
      }
    }
  }

  /** Later occurrences override earlier ones: appending a value option
      and its value to a command line that scans cleanly sets that option's
      out-parameter to the new value and changes nothing else. */
  lemma LaterValueOverrides(argv: seq<string>, a: Args, opt: string, v: string)
    requires |argv| >= 2
    requires Scan(argv, 2, a).Scanned?
    requires TakesValue(opt)
    ensures var b := Scan(argv, 2, a).args;
            Scan(argv + [opt, v], 2, a) == Scanned(
              if opt == "-d" then b.(devicePref := FirstChar(v))
              else if opt == "-e" then b.(events := Some(v))
              else if opt == "-i" then b.(input := Some(v))
              else b.(ipts := Some(v)))
  {
    var all := argv + [opt, v];
    var b := Scan(argv, 2, a).args;
    assert all[|argv|] == opt && all[|argv| + 1] == v;
    ScanAppend(argv, [opt, v], 2, a);
    assert Scan(all, |argv| + 2, WithValue(b, opt, v)) == Scanned(WithValue(b, opt, v));
  }

  /** An option that needs a value but comes last is a usage error. */
  lemma TrailingOptionIsUsageError(argv: seq<string>, a: Args, opt: string)
    requires |argv| >= 2
    requires Scan(argv, 2, a).Scanned?
    requires TakesValue(opt)
    ensures Scan(argv + [opt], 2, a) == UsageError(opt)
  {
    var all := argv + [opt];
    assert all[|argv|] == opt;
    ScanAppend(argv, [opt], 2, a);
  }

  /** Unknown tokens are skipped. */
  lemma OtherTokensIgnored(argv: seq<string>, a: Args, t: string)
    requires |argv| >= 2
    requires Scan(argv, 2, a).Scanned?
    requires !TakesValue(t) && t != "-n" && t != "-v"
    ensures Scan(argv + [t], 2, a) == Scan(argv, 2, a)
  {
    var all := argv + [t];
    var b := Scan(argv, 2, a).args;
    assert all[|argv|] == t;
    ScanAppend(argv, [t], 2, a);
    assert Scan(all, |argv| + 1, b) == Scanned(b);
    assert Scan(all, |argv|, b) == Scan(all, |argv| + 1, b);
  }

  /** The file-scope `usingImages` flag with its setter and getter. */
  class ImageSetting {
    var usingImages: bool

    /** The flag starts out true. */
    constructor ()
      ensures usingImages
    {
      usingImages := true;
    }

    method SetUsingImages(val: bool)
      modifies this
      ensures usingImages == val
    {
      usingImages := val;
    }

    method IsUsingImages() returns (b: bool)
      ensures b == usingImages
    {
      b := usingImages;
    }
  }

  /** parseArguments: scans argv from index 2, writing the out-parameters
      it finds options for and clearing the images flag on "-n"; a missing
      option value ends the program with a usage message. */
  method ParseArguments(argv: seq<string>, input: Option<string>, events: Option<string>,
                        ipts: Option<string>, devicePref: char, verify: bool,
                        setting: ImageSetting)
    returns (r: ScanResult)
    modifies setting
    ensures r == Scan(argv, 2, Args(input, events, ipts, devicePref, verify, old(setting.usingImages)))
    ensures r.Scanned? ==> setting.usingImages == r.args.usingImages
  {
    var a := Args(input, events, ipts, devicePref, verify, setting.usingImages);
    var i := 2;
    while i < |argv|
      invariant 2 <= i
      invariant a.usingImages == setting.usingImages
      invariant Scan(argv, 2, Args(input, events, ipts, devicePref, verify, old(setting.usingImages)))
                == Scan(argv, i, a)
      decreases |argv| - i
    {
      var t := argv[i];
      if TakesValue(t) {
        if i == |argv| - 1 {
          return UsageError(t);
        }
        if t == "-d" {
          a := a.(devicePref := FirstChar(argv[i + 1]));
        } else if t == "-e" {
          a := a.(events := Some(argv[i + 1]));
        } else if t == "-i" {
          a := a.(input := Some(argv[i + 1]));
        } else {
          a := a.(ipts := Some(argv[i + 1]));
        }
        i := i + 2;
      } else if t == "-n" {
        setting.SetUsingImages(false);
        a := a.(usingImages := false);
        i := i + 1;
      } else {
        if t == "-v" {
          a := a.(verify := true);
        }
        i := i + 1;
      }
    }
    return Scanned(a);
  }

  // ---------------------------------------------------------------------
  // smartStrcat
  // ---------------------------------------------------------------------

  /** A heap-allocated C string: its characters and the bytes allocated. */
  datatype CString = CString(text: string, allocBytes: nat)

  /** smartStrcat allocates strlen(str1) + strlen(str2) + 1 bytes and
      copies both strings into it. */
  function SmartStrcat(str1: string, str2: string): (r: CString)
    ensures |r.text| == |str1| + |str2|
    ensures r.text[..|str1|] == str1 && r.text[|str1|..] == str2
    ensures |r.text| + 1 <= r.allocBytes
  {
    CString(str1 + str2, |str1| + |str2| + 1)
  }
}
