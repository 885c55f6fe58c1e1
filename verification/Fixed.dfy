/** The fixed-point scalars of libs/linears: 64-bit integers with 31 fraction bits.
    Results are rounded to the nearest integer, ties away from zero, or refused when
    they leave the 64 bits. */
module Fixed {

  const ONE := 0x8000_0000
  const INT64_MAX := 0x7fff_ffff_ffff_ffff
  const INT64_MIN := -0x8000_0000_0000_0000

  datatype Status = OK | RANGE | DOMAIN

  /** What a scalar operation returns: a value, meaningful where the status is OK. */
  datatype Result = Result(value: int, status: Status)

  const INT128_MAX := 0x7fff_ffff_ffff_ffff_ffff_ffff_ffff_ffff

  predicate InRange(x: int)
  {
    INT64_MIN <= x <= INT64_MAX
  }

  function Abs(x: int): nat
  {
    if x < 0 then -x else x
  }

  /** The quotient of magnitudes, rounded half up. */
  function RoundMagnitude(n: nat, d: nat): nat
    requires d > 0
  {
    n / d + if n % d >= d - n % d then 1 else 0
  }

  /** `rounded_division` and `round_shift`: nearest, ties away from zero. */
  function RoundDiv(n: int, d: int): int
    requires d != 0
  {
    if (n < 0) == (d < 0) then RoundMagnitude(Abs(n), Abs(d)) else 0 - RoundMagnitude(Abs(n), Abs(d))
  }

  function Checked(x: int): Result
  {
    if InRange(x) then Result(x, OK) else Result(0, RANGE)
  }

  /** The `fcq_` operations carry a status along: once it is not OK they return 0. */
  function Add(a: int, b: int, s: Status): Result
  {
    if s != OK then Result(0, s) else Checked(a + b)
  }

  function Sub(a: int, b: int, s: Status): Result
  {
    if s != OK then Result(0, s) else Checked(a - b)
  }

  function Mul(a: int, b: int, s: Status): Result
  {
    if s != OK then Result(0, s) else Checked(RoundDiv(a * b, ONE))
  }

  function Div(a: int, b: int, s: Status): Result
  {
    if s != OK then Result(0, s) else if b == 0 then Result(0, DOMAIN) else Checked(RoundDiv(a * ONE, b))
  }

  function MulDiv(a: int, b: int, divisor: int): Result
  {
    if divisor == 0 then Result(0, DOMAIN) else Checked(RoundDiv(a * b, divisor))
  }

  function AbsChecked(a: int, s: Status): Result
  {
    if s != OK then Result(0, s) else Checked(Abs(a))
  }

  /** A value is refused where it needs more than 64 bits, a failed operation returns 0,
      and one that starts with a failed status passes it on. */
  lemma ChecksExactly(a: int, b: int, s: Status)
    ensures Checked(a) ==
      if -0x8000_0000_0000_0000 <= a < 0x8000_0000_0000_0000 then Result(a, OK) else Result(0, RANGE)
    ensures forall r :: r in {Add(a, b, s), Sub(a, b, s), Mul(a, b, s), Div(a, b, s), AbsChecked(a, s)} ==>
      (s != OK ==> r == Result(0, s)) && (r.status != OK ==> r.value == 0)
    ensures b != 0 && s == OK ==> Div(a, b, s) == MulDiv(a, ONE, b) && Mul(a, b, s) == MulDiv(a, b, ONE)
    ensures s == OK ==> Div(a, 0, s) == MulDiv(a, ONE, 0) == Result(0, DOMAIN)
  {
    hide RoundDiv;
  }

  // ---------------------------------------------------------------- rounding

  lemma Gap(a: int, b: int, d: nat)
    requires a > b
    ensures a * d >= b * d + d
  {
    var k := a - b - 1;
    assert k * d >= 0;
    assert a * d == (b + 1 + k) * d == b * d + d + k * d;
  }

  /** What rounding means: no further off than half of the divisor, and exactly half
      only away from zero. */
  lemma RoundMagnitudeNearest(n: nat, d: nat)
    requires d > 0
    ensures var r := RoundMagnitude(n, d);
      2 * n - d < 2 * (r * d) <= 2 * n + d
  {
    var q, m := n / d, n % d;
    assert n == q * d + m;
    assert (q + 1) * d == q * d + d;
  }

  /** No other integer satisfies it. */
  lemma RoundMagnitudeUnique(n: nat, d: nat, r: int)
    requires d > 0 && 2 * n - d < 2 * (r * d) <= 2 * n + d
    ensures r == RoundMagnitude(n, d)
  {
    hide RoundMagnitude;
    RoundMagnitudeNearest(n, d);
    var k := RoundMagnitude(n, d);
    if r > k {
      Gap(r, k, d);
    } else if r < k {
      Gap(k, r, d);
    }
  }

  lemma RoundDivFlips(n: int, d: int)
    requires d > 0
    ensures RoundDiv(-n, d) == -RoundDiv(n, d)
  {
    if n == 0 {
      assert RoundMagnitude(0, d) == 0;
    }
  }

  /** Whole multiples are exact. */
  lemma RoundDivExact(n: int, d: int)
    requires d > 0
    ensures RoundDiv(n * d, d) == n
  {
    if n >= 0 {
      assert n * d >= 0 && Abs(n * d) == n * d;
      RoundMagnitudeUnique(n * d, d, n);
    } else {
      assert n * d < 0 && Abs(n * d) == (-n) * d;
      RoundMagnitudeUnique((-n) * d, d, -n);
    }
  }

  lemma RoundMagnitudeMonotone(m: nat, n: nat, d: nat)
    requires d > 0 && m <= n
    ensures RoundMagnitude(m, d) <= RoundMagnitude(n, d)
  {
    hide RoundMagnitude;
    RoundMagnitudeNearest(m, d);
    RoundMagnitudeNearest(n, d);
    if RoundMagnitude(m, d) > RoundMagnitude(n, d) {
      Gap(RoundMagnitude(m, d), RoundMagnitude(n, d), d);
    }
  }

  /** Rounding keeps the order. */
  lemma RoundDivMonotone(m: int, n: int, d: int)
    requires d > 0 && m <= n
    ensures RoundDiv(m, d) <= RoundDiv(n, d)
  {
    if m >= 0 {
      RoundMagnitudeMonotone(m, n, d);
    } else if n < 0 {
      RoundMagnitudeMonotone(-n, -m, d);
    }
  }

  // ---------------------------------------------------------------- signals

  /** The narrow formats of signals. */
  datatype Format = Q15 | Q31

  /** One raw unit of a signal in F31. */
  function Unit(f: Format): int
  {
    if f == Q15 then 0x1_0000 else 1
  }

  predicate Signal(f: Format, x: int)
  {
    if f == Q15 then -0x8000 <= x <= 0x7fff else -0x8000_0000 <= x <= 0x7fff_ffff
  }

  /** `linears_fixed_from_q15` and `linears_fixed_from_q31`. */
  function Load(f: Format, x: int): int
  {
    x * Unit(f)
  }

  // ---------------------------------------------------------------- products

  lemma AbsProduct(a: int, b: int)
    ensures Abs(a * b) == Abs(a) * Abs(b)
  {
    if a < 0 {
      assert -a * b == -(a * b);
    }
    if b < 0 {
      assert Abs(a) * -b == -(Abs(a) * b);
    }
  }

  lemma MulMonotone(a: nat, b: nat, c: nat)
    requires a <= b
    ensures a * c <= b * c
  {
    assert (b - a) * c >= 0;
  }
}
