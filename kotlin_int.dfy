/** The parts of Kotlin's integer semantics that the transcoder depends on:
    32-bit wrap-around of `Int` arithmetic, `/` truncating toward zero, and
    the `coerceAtLeast` / `coerceIn` clamps. */
module KotlinInt {

  const IntMin: int := -0x8000_0000
  const IntMax: int := 0x7fff_ffff

  /** Values of Kotlin's `Int`. */
  type Int32 = x: int | -0x8000_0000 <= x < 0x8000_0000

  /** Values of Kotlin's `Long`. */
  type Int64 = x: int | -0x8000_0000_0000_0000 <= x < 0x8000_0000_0000_0000

  function Abs(x: int): nat
  {
    if x < 0 then -x else x
  }

  function Max(a: int, b: int): int
  {
    if a < b then b else a
  }

  function Min(a: int, b: int): int
  {
    if a < b then a else b
  }

  /** The `Int` that an exact result `x` becomes: its low 32 bits read as two's complement. */
  function Wrap32(x: int): (r: Int32)
    ensures (r - x) % 0x1_0000_0000 == 0
    ensures IntMin <= x <= IntMax ==> r == x
  {
    (x + 0x8000_0000) % 0x1_0000_0000 - 0x8000_0000
  }

  /** Kotlin's `/` on integers: the quotient rounded toward zero, so the
      remainder takes the sign of the dividend. Dividing by zero throws, which
      callers check before calling. */
  function Div(a: int, b: int): (q: int)
    requires b != 0
    ensures Abs(q) == Abs(a) / Abs(b)
    ensures q > 0 ==> (a > 0) == (b > 0)
    ensures q < 0 ==> (a > 0) != (b > 0)
  {
    var m := Abs(a) / Abs(b);
    assert 0 <= m by { DivNonNegative(Abs(a), Abs(b)); }
    assert a == 0 ==> m == 0;
    if (a >= 0) == (b > 0) then m else -m
  }

  lemma DivNonNegative(a: nat, b: nat)
    requires b > 0
    ensures a / b >= 0
    ensures a == 0 ==> a / b == 0
  {
  }

  /** Kotlin's `x.coerceAtLeast(lo)`. */
  function CoerceAtLeast(x: int, lo: int): (r: int)
    ensures r >= lo
    ensures x >= lo ==> r == x
    ensures x < lo ==> r == lo
  {
    if x < lo then lo else x
  }

  /** Kotlin's `x.coerceIn(lo, hi)`. */
  function CoerceIn(x: int, lo: int, hi: int): (r: int)
    requires lo <= hi
    ensures lo <= r <= hi
    ensures lo <= x <= hi ==> r == x
    ensures x < lo ==> r == lo
    ensures hi < x ==> r == hi
  {
    if x < lo then lo else if hi < x then hi else x
  }

  /** A positive divisor leaves a non-negative dividend's order intact. */
  lemma DivMonotone(a: int, b: int, d: int)
    requires 0 <= a <= b && d > 0
    ensures a / d <= b / d
  {
    var qa, qb := a / d, b / d;
    if qa > qb {
      MulMonotone(qb + 1, qa, d);
      assert false;
    }
  }

  lemma MulMonotone(x: int, y: int, d: int)
    requires x <= y && d > 0
    ensures x * d <= y * d
  {
  }

  /** Dividing a multiple of `d` by `d` is exact. */
  lemma MulDivCancel(n: int, d: int)
    requires d > 0
    ensures n * d / d == n && (n * d) % d == 0
  {
    var q, r := n * d / d, (n * d) % d;
    assert n * d == q * d + r && 0 <= r < d;
    assert (n - q) * d == r;
    if n - q >= 1 {
      MulMonotone(1, n - q, d);
      assert false;
    } else if n - q <= -1 {
      MulMonotone(n - q, -1, d);
      assert false;
    }
  }

  /** A dividend of at least `c` times the divisor has a quotient of at least `c`. */
  lemma DivAtLeast(a: int, c: int, d: int)
    requires d > 0 && c >= 0 && a >= c * d
    ensures a / d >= c
  {
    var q := a / d;
    if q < c {
      MulMonotone(q + 1, c, d);
      assert false;
    }
  }
}
