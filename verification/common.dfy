/** Small definitions shared by the modules of the model: an Option type,
    C integer semantics (truncating division, 32-bit two's-complement wrap)
    and absolute values. */
module Common {

  datatype Option<+T> = None | Some(value: T)

  const INT32_MIN: int := -0x8000_0000
  const INT32_MAX: int := 0x7fff_ffff
  const UINT32_LIMIT: int := 0x1_0000_0000

  predicate IsInt32(x: int) {
    INT32_MIN <= x <= INT32_MAX
  }

  /** The value a C `int` holds after an arithmetic result `x` is stored in
      it (two's-complement wrap-around). */
  function WrapInt32(x: int): (r: int)
    ensures IsInt32(r)
    ensures IsInt32(x) ==> r == x
  {
    (x - INT32_MIN) % UINT32_LIMIT + INT32_MIN
  }

  /** The wrapped value differs from the exact one by a multiple of 2^32. */
  lemma WrapInt32Congruent(x: int)
    ensures (WrapInt32(x) - x) % UINT32_LIMIT == 0
  {
  }

  function Abs(x: int): (r: nat)
    ensures r == x || r == -x
  {
    if x < 0 then -x else x
  }

  function AbsReal(x: real): (r: real)
    ensures r >= 0.0
    ensures r == x || r == -x
  {
    if x < 0.0 then -x else x
  }

  /** C's `/` on integers: the quotient truncated toward zero. */
  function CDiv(a: int, b: int): (q: int)
    requires b != 0
    ensures Abs(q) == Abs(a) / Abs(b)
    ensures q == 0 || ((q < 0) <==> ((a < 0) != (b < 0)))
  {
    var n := Abs(a);
    var d := Abs(b);
    var m := n / d;
    assert 0 <= m;
    if (a < 0) == (b < 0) then m else -m
  }

  /** C's `%` on integers: the remainder takes the sign of the dividend. */
  function CRem(a: int, b: int): (r: int)
    requires b != 0
    ensures a == CDiv(a, b) * b + r
    ensures Abs(r) < Abs(b)
    ensures Abs(r) == Abs(a) % Abs(b)
    ensures r == 0 || (r < 0 <==> a < 0)
  {
    var n := Abs(a);
    var d := Abs(b);
    var k := n % d;
    CDivTimesDivisor(a, b);
    if a < 0 then -k else k
  }

  /** The truncated quotient times the divisor is the magnitude's
      multiple of the divisor, carrying the dividend's sign. */
  lemma CDivTimesDivisor(a: int, b: int)
    requires b != 0
    ensures var n := Abs(a); var d := Abs(b);
            n == (n / d) * d + n % d && 0 <= n % d < d
            && CDiv(a, b) * b == (if a < 0 then -((n / d) * d) else (n / d) * d)
  {
    var n := Abs(a);
    var d := Abs(b);
    var m := n / d;
    var q := CDiv(a, b);
    if (a < 0) == (b < 0) {
      assert q == m;
      if b < 0 { assert d == -b; assert m * b == -(m * d); } else { assert d == b; }
    } else {
      assert q == -m;
      if b < 0 { assert d == -b; assert (-m) * b == m * d; } else { assert d == b; assert (-m) * b == -(m * d); }
    }
  }

  /** Truncation of a real toward zero, as a C cast to `int` or Python's
      `int()` does. */
  function Trunc(x: real): (r: int)
    ensures AbsReal(r as real) <= AbsReal(x) < AbsReal(r as real) + 1.0
    ensures x >= 0.0 ==> r >= 0
    ensures x <= 0.0 ==> r <= 0
  {
    if x >= 0.0 then x.Floor else -((-x).Floor)
  }

  function Min(a: int, b: int): (r: int)
    ensures r <= a && r <= b && (r == a || r == b)
  {
    if a <= b then a else b
  }

  /** Wrapping after every addition is the same as wrapping once at the
      end: the int32 device counter after several atomic additions. */
  lemma WrapInt32AddWrapped(x: int, y: int)
    ensures WrapInt32(WrapInt32(x) + y) == WrapInt32(x + y)
  {
    WrapInt32Congruent(x);
    var a := WrapInt32(x);
    var k := (a - x) / UINT32_LIMIT;
    assert a - x == k * UINT32_LIMIT;
    assert (a + y - INT32_MIN) == (x + y - INT32_MIN) + k * UINT32_LIMIT;
  }

  /** One kernel dispatch as the host enqueues it: the kernel's name, the
      global and local work sizes per dimension, the identifier passed for
      profiling, and the response layers it reads (empty when none). */
  datatype Launch = Launch(kernel: string, global: seq<int>, local: seq<int>, id: int, layers: seq<int>)
}
