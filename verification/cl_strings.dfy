/** The string helpers of src/clutils.cpp: `itoa_portable`,
    `catStringWithInt` and `cl_errChk`. */
module ClStrings {
  import opened Common
  import HostUtils

  // ---------------------------------------------------------------------
  // Digits
  // ---------------------------------------------------------------------

  /** The digit for 0 <= d < 36: 0-9 then a-z. */
  function DigitChar(d: nat): (c: char)
    requires d < 36
    ensures '0' <= c <= '9' || 'a' <= c <= 'z'
    ensures DigitValue(c) == d
  {
    if d < 10 then ('0' as int + d) as char else ('a' as int + d - 10) as char
  }

  function DigitValue(c: char): int {
    if '0' <= c <= '9' then c as int - '0' as int else c as int - 'a' as int + 10
  }

  const DIGITS: string := "0123456789abcdefghijklmnopqrstuvwxyz"

  /** The lookup table of itoa_portable: the digits mirrored around '0'
      at index 35 (the same 71 characters as the C literal). */
  const TABLE: string := "zyxwvutsrqponmlkjihgfedcba987654321" + DIGITS

  lemma DigitsTable(d: nat)
    requires d < 36
    ensures DIGITS[d] == DigitChar(d)
  {
    if d < 10 { } else if d < 20 { } else if d < 30 { } else { }
  }

  /** The table is symmetric around index 35, so a negative remainder
      selects the same digit as its magnitude. */
  lemma TableMirrorsDigits(r: int)
    requires -35 <= r <= 35
    ensures TABLE[35 + r] == DigitChar(Abs(r))
  {
    if r >= 0 {
      DigitsTable(r);
    } else if r >= -10 { } else if r >= -20 { } else if r >= -30 { } else { }
  }

  /** Euclidean division facts for a base of at least 2. */
  lemma DivStep(n: nat, b: nat)
    requires b >= 2
    ensures n == (n / b) * b + n % b && 0 <= n % b < b
    ensures n >= b ==> 1 <= n / b < n
    ensures n < b ==> n / b == 0 && n % b == n
  {
    var q := n / b;
    var r := n % b;
    assert n == q * b + r;
    if n >= b {
      assert q * b > 0;
      assert q * b >= q * 2;
    }
  }

  /** The base-`b` digits of n, most significant first, without leading
      zeros ("0" for zero). */
  function Digits(n: nat, b: nat): (s: string)
    requires 2 <= b <= 36
    ensures |s| >= 1 && s[0] != '-'
    decreases n
  {
    if n < b then [DigitChar(n)] else Digits(DivBase(n, b), b) + [DigitChar(n % b)]
  }

  /** n / b, with the facts the digit recursion needs. */
  function DivBase(n: nat, b: nat): (q: nat)
    requires 2 <= b <= 36
    ensures n >= b ==> 1 <= q < n
  {
    DivStep(n, b);
    n / b
  }

  /** A positive number has no leading zero. */
  lemma {:induction false} DigitsNoLeadingZero(n: nat, b: nat)
    requires 2 <= b <= 36 && n > 0
    ensures Digits(n, b)[0] != '0'
    decreases n
  {
    if n >= b {
      DigitsNoLeadingZero(DivBase(n, b), b);
    }
  }

  /** Every character of the digit string is a digit of the base. */
  lemma {:induction false} DigitsInBase(n: nat, b: nat)
    requires 2 <= b <= 36
    ensures forall k :: 0 <= k < |Digits(n, b)| ==> 0 <= DigitValue(Digits(n, b)[k]) < b
    decreases n
  {
    DivStep(n, b);
    if n >= b {
      DigitsInBase(n / b, b);
      var s := Digits(n, b);
      assert s == Digits(n / b, b) + [DigitChar(n % b)];
    }
  }

  /** Digit strings never contain the terminator. */
  lemma {:induction false} DigitsHaveNoNul(n: nat, b: nat)
    requires 2 <= b <= 36
    ensures forall k :: 0 <= k < |Digits(n, b)| ==> Digits(n, b)[k] != '\0'
    decreases n
  {
    if n >= b {
      DigitsHaveNoNul(DivBase(n, b), b);
    }
  }

  /** The value a string of base-`b` digits denotes. */
  function Value(s: string, b: nat): int
  {
    if s == [] then 0 else Value(s[..|s| - 1], b) * b + DigitValue(s[|s| - 1])
  }

  /** Reading the digits back yields the number. */
  lemma {:induction false} DigitsRoundTrip(n: nat, b: nat)
    requires 2 <= b <= 36
    ensures Value(Digits(n, b), b) == n
    decreases n
  {
    DivStep(n, b);
    if n >= b {
      DigitsRoundTrip(n / b, b);
      var s := Digits(n, b);
      assert s[..|s| - 1] == Digits(n / b, b);
      assert s[|s| - 1] == DigitChar(n % b);
    }
  }

  /** What itoa_portable writes before the terminator: nothing for an
      invalid base, otherwise '-' for negative values followed by the
      digits of the magnitude. */
  function Itoa(value: int, base: int): (s: string)
    ensures !(2 <= base <= 36) ==> s == []
    ensures 2 <= base <= 36 ==> |s| >= 1 && (s[0] == '-' <==> value < 0)
  {
    if !(2 <= base <= 36) then []
    else (if value < 0 then "-" else "") + Digits(Abs(value), base)
  }

  lemma ItoaHasNoNul(value: int, base: int)
    ensures forall k :: 0 <= k < |Itoa(value, base)| ==> Itoa(value, base)[k] != '\0'
  {
    if 2 <= base <= 36 {
      DigitsHaveNoNul(Abs(value), base);
    }
  }

  /** The sign and the digit string together determine the value. */
  lemma ItoaDeterminesValue(value: int, base: int)
    requires 2 <= base <= 36
    ensures var s := Itoa(value, base);
            if s[0] == '-' then -Value(s[1..], base) == value else Value(s, base) == value
  {
    DigitsRoundTrip(Abs(value), base);
    var s := Itoa(value, base);
    var d := Digits(Abs(value), base);
    if value < 0 {
      assert s == "-" + d;
      assert s[1..] == d;
    } else {
      assert s == d;
    }
  }

  /** The characters of `s` in the opposite order. */
  function Reverse(s: string): (r: string)
    ensures |r| == |s|
  {
    seq(|s|, k requires 0 <= k < |s| => s[|s| - 1 - k])
  }

  /** Reversing twice gives back the original string. */
  lemma ReverseReverse(s: string)
    ensures Reverse(Reverse(s)) == s
  {
  }

  // ---------------------------------------------------------------------
  // itoa_portable
  // ---------------------------------------------------------------------

  /** itoa_portable(value, result, base): writes the base-`base` form of an
      int into `result` as a NUL-terminated string.  Digits are produced
      least significant first with C's truncating division (so negative
      values, INT_MIN included, are never negated), the sign is appended,
      and the characters before the terminator are then reversed in place. */
  method ItoaPortable(value: int, result: array<char>, base: int)
    requires IsInt32(value)
    requires |Itoa(value, base)| < result.Length
    modifies result
    ensures result[..|Itoa(value, base)|] == Itoa(value, base)
    ensures result[|Itoa(value, base)|] == '\0'
    ensures forall k :: |Itoa(value, base)| < k < result.Length ==> result[k] == old(result[k])
  {
    if base < 2 || base > 36 {
      result[0] := '\0';
    } else {
      ghost var text := Itoa(value, base);
      var len := WriteDigitsReversed(value, result, base);
      ghost var written := result[..len];
      assert written == Reverse(text);
      ReverseInPlace(result, len);
      ReverseReverse(text);
      assert result[..len] == text;
    }
  }

  /** The digit loop and the sign: leaves the text reversed, followed by
      the terminator, and returns its length. */
  method WriteDigitsReversed(value: int, result: array<char>, base: int) returns (len: nat)
    requires 2 <= base <= 36
    requires |Itoa(value, base)| < result.Length
    modifies result
    ensures len == |Itoa(value, base)|
    ensures forall k :: 0 <= k < len ==> result[k] == Itoa(value, base)[len - 1 - k]
    ensures result[len] == '\0'
    ensures forall k :: len < k < result.Length ==> result[k] == old(result[k])
  {
    ghost var all := Digits(Abs(value), base);
    ghost var text := Itoa(value, base);
    assert text == (if value < 0 then ['-'] + all else all);
    var ptr, tmp := DigitLoop(value, result, base);
    if tmp < 0 {
      result[ptr] := '-';
      ptr := ptr + 1;
    }
    result[ptr] := '\0';
    len := ptr;
  }

  /** The do-while loop of itoa_portable: the digits of the magnitude,
      least significant first; returns how many were written and the last
      value divided, whose sign is the sign of `value`. */
  method DigitLoop(value: int, result: array<char>, base: int) returns (ptr: nat, tmp: int)
    requires 2 <= base <= 36
    requires |Digits(Abs(value), base)| < result.Length
    modifies result
    ensures ptr == |Digits(Abs(value), base)| && (tmp < 0 <==> value < 0)
    ensures forall k :: 0 <= k < ptr ==> result[k] == Reverse(Digits(Abs(value), base))[k]
    ensures forall k :: ptr <= k < result.Length ==> result[k] == old(result[k])
  {
    ghost var all := Digits(Abs(value), base);
    ghost var m := |all|;
    ghost var backwards := Reverse(all);
    var v := value;
    tmp := value;
    ptr := 0;
    var done := false;
    while !done
      invariant 0 <= ptr <= m
      invariant forall k :: 0 <= k < ptr ==> result[k] == backwards[k]
      invariant !done ==> Digits(Abs(v), base) == all[..m - ptr]
      invariant !done ==> (v < 0 <==> value < 0)
      invariant done ==> ptr == m && (tmp < 0 <==> value < 0)
      invariant forall k :: ptr <= k < result.Length ==> result[k] == old(result[k])
      decreases Abs(v) + (if done then 0 else 1)
    {
      tmp := v;
      var c;
      v, c := NextDigit(tmp, base);
      assert all[m - 1 - ptr] == backwards[ptr] == c;
      result[ptr] := c;
      if v == 0 {
        done := true;
      } else {
        assert all[..m - ptr - 1] == all[..m - ptr][..m - ptr - 1];
      }
      ptr := ptr + 1;
    }
  }

  /** One round of the do-while loop: `value /= base` and the table
      lookup at 35 plus the (possibly negative) remainder. */
  method NextDigit(tmp: int, base: int) returns (v: int, c: char)
    requires 2 <= base <= 36
    ensures v == CDiv(tmp, base)
    ensures v != 0 ==> (v < 0 <==> tmp < 0)
    ensures v != 0 ==> Abs(v) < Abs(tmp) &&
                       Digits(Abs(tmp), base) == Digits(Abs(v), base) + [c]
    ensures v == 0 ==> Digits(Abs(tmp), base) == [c]
  {
    v := CDiv(tmp, base);
    var r := tmp - v * base;
    assert r == CRem(tmp, base);
    DigitStep(tmp, base);
    c := TABLE[35 + r];
  }

  /** Swaps characters from both ends towards the middle: the first `n`
      characters end up reversed and nothing else changes. */
  method ReverseInPlace(a: array<char>, n: nat)
    requires n <= a.Length
    modifies a
    ensures a[..n] == Reverse(old(a[..n]))
    ensures forall k :: n <= k < a.Length ==> a[k] == old(a[k])
  {
    var p1 := 0;
    var p2 := n - 1;
    while p1 < p2
      invariant 0 <= p1 && p2 == n - 1 - p1
      invariant p1 <= n
      invariant forall k :: 0 <= k < p1 ==> a[k] == old(a[n - 1 - k])
      invariant forall k :: p2 < k < n ==> a[k] == old(a[n - 1 - k])
      invariant forall k :: p1 <= k <= p2 ==> a[k] == old(a[k])
      invariant forall k :: n <= k < a.Length ==> a[k] == old(a[k])
    {
      var c := a[p2];
      a[p2] := a[p1];
      a[p1] := c;
      p1 := p1 + 1;
      p2 := p2 - 1;
    }
  }

  /** One round of the digit loop: the truncating quotient carries the
      remaining digits and the sign, and the table entry at 35 plus the
      remainder is the digit of the magnitude. */
  lemma DigitStep(tmp: int, base: int)
    requires 2 <= base <= 36
    ensures var v := CDiv(tmp, base);
            var r := CRem(tmp, base);
            && -35 <= r <= 35
            && (v != 0 ==> (v < 0 <==> tmp < 0))
            && (v != 0 ==> Abs(v) < Abs(tmp) &&
                           Digits(Abs(tmp), base) == Digits(Abs(v), base) + [TABLE[35 + r]])
            && (v == 0 ==> Digits(Abs(tmp), base) == [TABLE[35 + r]])
  {
    var r := CRem(tmp, base);
    var n := Abs(tmp);
    DigitsLast(n, base);
    TableMirrorsDigits(r);
  }

  /** The last digit is the remainder and the others are the digits of
      the quotient. */
  lemma DigitsLast(n: nat, b: nat)
    requires 2 <= b <= 36
    ensures n >= b ==> 1 <= n / b < n && Digits(n, b) == Digits(n / b, b) + [DigitChar(n % b)]
    ensures n < b ==> n / b == 0 && Digits(n, b) == [DigitChar(n % b)]
  {
    DivStep(n, b);
  }

  // ---------------------------------------------------------------------
  // catStringWithInt
  // ---------------------------------------------------------------------

  /** Bytes catStringWithInt allocates for the result, as written:
      strlen(string) + 5 + 1. */
  function CatAllocationAsWritten(s: string): nat {
    |s| + 5 + 1
  }

  /** Bytes the copy writes into the result: the string, the comma, at most
      five characters of the decimal form and the terminator. */
  function CatBytesWritten(s: string, integer: int): (n: nat)
    ensures n <= |s| + 7
  {
    |s| + 1 + Min(5, |Itoa(integer, 10)|) + 1
  }

  /** Bytes `itoa_portable` writes into `tmp`. */
  function ItoaBytesWritten(integer: int): nat {
    |Itoa(integer, 10)| + 1
  }

  /** Any identifier with five decimal characters (10000 for instance)
      overflows the as-written allocation by one byte, and a negative
      five-digit identifier does not fit `char tmp[6]`. */
  lemma CatStringWithIntOverflowsAsWritten(s: string)
    ensures CatBytesWritten(s, 10000) == CatAllocationAsWritten(s) + 1
    ensures ItoaBytesWritten(-10000) == 7
  {
    assert Digits(10000, 10) == "10000";
    assert Itoa(-10000, 10) == "-10000";
  }

  /** The five-character limit of strncat never drops characters of an
      identifier in 0..99999, so the overflow above is the only defect
      for non-negative identifiers. */
  lemma DigitsBelowLimit(n: nat)
    requires n <= 99999
    ensures |Digits(n, 10)| <= 5
  {
    assert Power(10, 5) == 100000;
    DigitsLengthBound(n, 10, 5);
  }

  /** Bytes the corrected helper allocates: room for the comma, five
      characters and the terminator. */
  function CatAllocation(s: string): (n: nat)
    ensures forall integer :: CatBytesWritten(s, integer) <= n
  {
    |s| + 7
  }

  /** catStringWithInt with the allocation fixed to strlen+7 and a
      12-byte `tmp`, which holds every int including INT_MIN.  Identifiers
      above 99999 end the program (None). */
  method CatStringWithInt(s: string, integer: int) returns (r: Option<HostUtils.CString>)
    requires IsInt32(integer)
    ensures integer > 99999 <==> r.None?
    ensures r.Some? ==>
              && r.value.text == s + "," + Itoa(integer, 10)[..Min(5, |Itoa(integer, 10)|)]
              && r.value.allocBytes == CatAllocation(s)
              && |r.value.text| + 1 <= r.value.allocBytes
  {
    if integer > 99999 {
      return None;
    }
    ghost var digits := Itoa(integer, 10);
    ItoaFitsInTwelve(integer);
    ItoaHasNoNul(integer, 10);
    var eventStr := new char[CatAllocation(s)];
    var tmp := new char[12];
    // strcpy, then strcat of the comma
    CopyInto(eventStr, 0, s);
    eventStr[|s|] := ',';
    ItoaPortable(integer, tmp, 10);
    // strncat: at most five characters, stopping at the terminator
    var n := StrNCat(eventStr, |s| + 1, tmp, 5, digits);
    var text := eventStr[..|s| + 1 + n];
    assert text == eventStr[..|s|] + [eventStr[|s|]] + eventStr[|s| + 1..|s| + 1 + n];
    return Some(HostUtils.CString(text, eventStr.Length));
  }

  /** strncat of at most `limit` characters of the NUL-terminated `text`
      held in `src` onto `dst`, whose current string ends at `at`: the
      characters land from `at` on, a terminator follows, and the part
      before `at` is untouched. */
  method StrNCat(dst: array<char>, at: nat, src: array<char>, limit: nat, ghost text: string) returns (n: nat)
    requires |text| < src.Length && src[..|text|] == text && src[|text|] == '\0'
    requires forall k :: 0 <= k < |text| ==> text[k] != '\0'
    requires at + Min(limit, |text|) < dst.Length
    modifies dst
    ensures n == Min(limit, |text|)
    ensures dst[..at] == old(dst[..at]) && dst[at..at + n] == text[..n] && dst[at + n] == '\0'
  {
    n := CopiedLength(src, limit, text);
    assert src[..n] == text[..n];
    CopyInto(dst, at, src[..n]);
    dst[at + n] := '\0';
    assert dst[at..at + n] == text[..n];
  }

  /** How many characters strncat takes from the NUL-terminated `text`
      held in `buf` when it may take at most `limit`. */
  method CopiedLength(buf: array<char>, limit: nat, ghost text: string) returns (n: nat)
    requires |text| < buf.Length && buf[..|text|] == text && buf[|text|] == '\0'
    requires forall k :: 0 <= k < |text| ==> text[k] != '\0'
    ensures n == Min(limit, |text|)
  {
    n := 0;
    while n < limit && buf[n] != '\0'
      invariant 0 <= n <= Min(limit, |text|)
    {
      assert n < |text| ==> buf[n] == text[n];
      n := n + 1;
    }
  }

  /** Copies `src` into `dst` from index `at` on and changes nothing else. */
  method CopyInto(dst: array<char>, at: nat, src: seq<char>)
    requires at + |src| <= dst.Length
    modifies dst
    ensures forall k :: 0 <= k < |src| ==> dst[at + k] == src[k]
    ensures forall k :: 0 <= k < dst.Length && !(at <= k < at + |src|) ==> dst[k] == old(dst[k])
  {
    var k := 0;
    while k < |src|
      invariant 0 <= k <= |src|
      invariant forall i :: 0 <= i < k ==> dst[at + i] == src[i]
      invariant forall i :: 0 <= i < dst.Length && !(at <= i < at + k) ==> dst[i] == old(dst[i])
    {
      dst[at + k] := src[k];
      k := k + 1;
    }
  }

  /** Every int, INT_MIN included, needs at most 11 characters in base 10. */
  lemma ItoaFitsInTwelve(integer: int)
    requires IsInt32(integer)
    ensures |Itoa(integer, 10)| <= 11
  {
    assert Power(10, 10) == 10000000000;
    DigitsLengthBound(Abs(integer), 10, 10);
  }

  /** A number below b^len has at most len digits. */
  lemma {:induction false} DigitsLengthBound(n: nat, b: nat, len: nat)
    requires 2 <= b <= 36
    requires n < Power(b, len) && len >= 1
    ensures |Digits(n, b)| <= len
    decreases len
  {
    DivStep(n, b);
    if n >= b {
      var p := Power(b, len - 1);
      assert len >= 2;
      assert n < b * p;
      assert n / b < p by {
        if n / b >= p {
          MulMono(n / b, p, b);
        }
      }
      DigitsLengthBound(n / b, b, len - 1);
    }
  }

  lemma MulMono(x: nat, y: nat, b: nat)
    requires x >= y
    ensures x * b >= y * b
  {
  }

  function Power(b: nat, e: nat): nat {
    if e == 0 then 1 else b * Power(b, e - 1)
  }

  // ---------------------------------------------------------------------
  // cl_errChk
  // ---------------------------------------------------------------------

  /** The OpenCL error names, indexed by the negated status. */
  const CL_ERRS: seq<string> := NAMED_LOW + UNNAMED + NAMED_HIGH

  /** Statuses -13 to -29 have no name. */
  const UNNAMED: seq<string> := ["", "", "", "", "", "", "", "", "", "", "", "", "", "", "", "", ""]

  /** Names for statuses 0 down to -12. */
  const NAMED_LOW: seq<string> := [
    "CL_SUCCESS", "CL_DEVICE_NOT_FOUND", "CL_DEVICE_NOT_AVAILABLE",
    "CL_COMPILER_NOT_AVAILABLE", "CL_MEM_OBJECT_ALLOCATION_FAILURE",
    "CL_OUT_OF_RESOURCES", "CL_OUT_OF_HOST_MEMORY",
    "CL_PROFILING_INFO_NOT_AVAILABLE", "CL_MEM_COPY_OVERLAP",
    "CL_IMAGE_FORMAT_MISMATCH", "CL_IMAGE_FORMAT_NOT_SUPPORTED",
    "CL_BUILD_PROGRAM_FAILURE", "CL_MAP_FAILURE"]

  /** Names for statuses -30 down to -63. */
  const NAMED_HIGH: seq<string> := [
    "CL_INVALID_VALUE", "CL_INVALID_DEVICE_TYPE", "CL_INVALID_PLATFORM",
    "CL_INVALID_DEVICE", "CL_INVALID_CONTEXT", "CL_INVALID_QUEUE_PROPERTIES",
    "CL_INVALID_COMMAND_QUEUE", "CL_INVALID_HOST_PTR", "CL_INVALID_MEM_OBJECT",
    "CL_INVALID_IMAGE_FORMAT_DESCRIPTOR", "CL_INVALID_IMAGE_SIZE",
    "CL_INVALID_SAMPLER", "CL_INVALID_BINARY", "CL_INVALID_BUILD_OPTIONS",
    "CL_INVALID_PROGRAM", "CL_INVALID_PROGRAM_EXECUTABLE",
    "CL_INVALID_KERNEL_NAME", "CL_INVALID_KERNEL_DEFINITION",
    "CL_INVALID_KERNEL", "CL_INVALID_ARG_INDEX", "CL_INVALID_ARG_VALUE",
    "CL_INVALID_ARG_SIZE", "CL_INVALID_KERNEL_ARGS",
    "CL_INVALID_WORK_DIMENSION ", "CL_INVALID_WORK_GROUP_SIZE",
    "CL_INVALID_WORK_ITEM_SIZE", "CL_INVALID_GLOBAL_OFFSET",
    "CL_INVALID_EVENT_WAIT_LIST", "CL_INVALID_EVENT", "CL_INVALID_OPERATION",
    "CL_INVALID_GL_OBJECT", "CL_INVALID_BUFFER_SIZE", "CL_INVALID_MIP_LEVEL",
    "CL_INVALID_GLOBAL_WORK_SIZE"]

  /** What cl_errChk does: `errorSeen` is its return value; on an error it
      prints the name `cl_errs[-status]` (None when that read falls outside
      the table) and ends the program when `exits` holds. */
  datatype ErrReport = ErrReport(errorSeen: bool, printedName: Option<string>, exits: bool)

  function ErrChk(status: int, exitOnErr: bool): (r: ErrReport)
    ensures r.errorSeen <==> status != 0
    ensures r.exits <==> status != 0 && exitOnErr
    ensures status == 0 ==> r.printedName.None?
    ensures status != 0 ==> (r.printedName.Some? <==> -63 <= status < 0)
    ensures r.printedName.Some? ==> r.printedName.value == CL_ERRS[-status]
  {
    if status != 0 then
      var name := if 0 <= -status < |CL_ERRS| then Some(CL_ERRS[-status]) else None;
      ErrReport(true, name, exitOnErr)
    else ErrReport(false, None, false)
  }

  /** The table has one entry per status from 0 down to -63, with names
      for the codes OpenCL 1.0 defines and blanks for -13..-29. */
  lemma ErrTableShape()
    ensures |CL_ERRS| == 64
    ensures CL_ERRS[0] == "CL_SUCCESS" && CL_ERRS[30] == "CL_INVALID_VALUE"
    ensures CL_ERRS[63] == "CL_INVALID_GLOBAL_WORK_SIZE"
    ensures forall k :: 13 <= k <= 29 ==> CL_ERRS[k] == ""
  {
  }
}
