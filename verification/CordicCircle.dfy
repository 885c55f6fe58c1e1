/** Sine and cosine of the CORDIC of libs/fieldctrl/src/cordic.c said without its
    rotations: signs by quadrants, sizes by octants, the distance from the circle, and
    quarter turns, for every angle. */
module CordicCircle {
  import opened Fixed
  import opened Cordic
  import opened CordicOctants

  // ---------------------------------------------------------------- growth from below

  /** One step multiplies the norm by at least 1 + 4^-i, up to truncation. */
  lemma {:induction false} NormStepLow(v: Vector, i: nat, forward: bool)
    requires i < 32 && Abs(v.x) < TURN && Abs(v.y) < TURN
    ensures var p := Pow2(i) * Pow2(i);
      p * Norm(Turned(v, i, forward)) >= p * Norm(v) + Norm(v) - p * NORM_UNIT
  {
    hide CoordShift, Turned, Pow2;
    var p := Pow2(i);
    var dx, dy := CoordShift(v.x, i), CoordShift(v.y, i);
    var rx := ShiftBounds(v.x, i);
    var ry := ShiftBounds(v.y, i);
    TurnedNormLow(v, i, forward);
    GrowthLow(v.x, v.y, dx, dy, p, rx, ry);
    hide Norm, Abs;
    ScaledLow(p, Norm(Turned(v, i, forward)), Norm(v), dx * dx + dy * dy, 2 * Abs(v.y * dx - v.x * dy),
              Abs(v.x) + Abs(v.y));
  }

  lemma SquareLow(e: int, r: int, p: nat, size: nat)
    requires Abs(e) <= size && Abs(r) <= p
    ensures (e + r) * (e + r) - 2 * (size * p) - p * p <= e * e
  {
    assert (e + r) * (e + r) == e * e + 2 * (e * r) + r * r;
    AbsProduct(e, r);
    MulMonotone(Abs(e), size, Abs(r));
    MulMonotone(Abs(r), p, size);
    AbsProduct(r, r);
    MulMonotone(Abs(r), p, Abs(r));
    MulMonotone(Abs(r), p, p);
  }

  lemma SquareBoundLow(d: int, p: nat, x: int, r: int)
    requires x == d * p + r && Abs(r) < p && Abs(d) * p <= Abs(x)
    ensures d * d * (p * p) >= x * x - 2 * (Abs(x) * p) - p * p
  {
    SmallShift(x, d, p);
    SquareLow(d * p, r, p, Abs(x));
    SquareProduct(d, p);
  }

  lemma AddUp(a: int, b: int, c: int, d: int, e: int, f: int, p: int, q: int)
    requires c * q >= a - 2 * (e * p) - q && d * q >= b - 2 * (f * p) - q
    ensures (c + d) * q >= a + b - 2 * ((e + f) * p) - 2 * q
  {
    Distribute(c, d, q);
    Distribute(e, f, p);
  }

  lemma GrowthLow(x: int, y: int, dx: int, dy: int, p: nat, rx: int, ry: int)
    requires x == dx * p + rx && y == dy * p + ry && Abs(rx) < p && Abs(ry) < p
    requires Abs(dx) * p <= Abs(x) && Abs(dy) * p <= Abs(y)
    ensures (dx * dx + dy * dy) * (p * p) >= x * x + y * y - 2 * ((Abs(x) + Abs(y)) * p) - 2 * (p * p)
    ensures Abs(y * dx - x * dy) <= Abs(x) + Abs(y)
  {
    CrossTerm(x, y, dx, dy, p, rx, ry);
    SquareBoundLow(dx, p, x, rx);
    SquareBoundLow(dy, p, y, ry);
    AddUp(x * x, y * y, dx * dx, dy * dy, Abs(x), Abs(y), p, p * p);
  }

  lemma TurnedNormLow(v: Vector, i: nat, forward: bool)
    requires i < 32
    ensures var dx, dy := CoordShift(v.x, i), CoordShift(v.y, i);
      Norm(Turned(v, i, forward)) >= Norm(v) + (dx * dx + dy * dy) - 2 * Abs(v.y * dx - v.x * dy)
  {
    hide CoordShift;
    var dx, dy := CoordShift(v.x, i), CoordShift(v.y, i);
    Expand(v.x, v.y, dx, dy);
  }

  lemma ScaledLow(p: nat, after: int, before: int, squares: int, cross: int, sum: nat)
    requires p > 0 && after >= before + squares - cross && cross <= 2 * sum && sum < 2 * TURN
    requires squares * (p * p) >= before - 2 * (sum * p) - 2 * (p * p)
    ensures p * p * after >= p * p * before + before - p * p * NORM_UNIT
  {
    var q := p * p;
    MulMonotone(p, q, sum);
    assert (after - before - squares + cross) * q >= 0;
    assert (2 * sum - cross) * q >= 0;
    MulMonotone(4 * sum + 2, NORM_UNIT, q);
  }

  /** The norm that 32 steps reach: what is missing of the whole product after `k` steps
      is less than 4/3 of 4^-k of it. */
  ghost predicate Reached(norm: int, k: nat, limit: nat)
  {
    var p := Pow2(k) * Pow2(k);
    6 * (p * p * norm) + 12 * (p * p * k * NORM_UNIT) >= limit * (6 * (p * p) - 8 * p + 9)
  }

  lemma Units(p: nat, k: nat)
    ensures p * p * k * NORM_UNIT == p * p * (k * NORM_UNIT)
  {
  }

  lemma {:induction false} ReachedStep(before: nat, after: int, k: nat, limit: nat)
    requires k >= 2 && Reached(before, k, limit)
    requires var p := Pow2(k) * Pow2(k); p * after >= p * before + before - p * NORM_UNIT
    ensures Reached(after, k + 1, limit)
  {
    hide Pow2;
    var p := Pow2(k) * Pow2(k);
    PowStep(k);
    MulMonotone(2 * k, p, NORM_UNIT);
    ReachedArithmetic(before, after, p, k * NORM_UNIT, limit);
    Units(p, k);
    Units(4 * p, k + 1);
  }

  lemma Cancelled(a: int, b: int, p: nat, c: int, d: int, m: nat)
    requires p > 0 && c >= d && a * p >= c * m && d * m >= b * p
    ensures a >= b
  {
    assert (c - d) * m >= 0;
    if a < b {
      Gap(b, a, p);
    }
  }

  lemma Products(p: nat, before: nat, after: int, u: nat)
    requires p * after >= p * before + before - p * NORM_UNIT && 2 * u <= p * NORM_UNIT
    ensures var q, r := 4 * p, p * p;
      (6 * (q * q * after) + 12 * (q * q * (u + NORM_UNIT))) * p
      >= (6 * (r * before) + 12 * (r * u)) * (16 * (p + 1))
  {
  }

  lemma Polynomials(p: nat, limit: nat)
    ensures var q, r := 4 * p, p * p;
      limit * (6 * r - 8 * p + 9) * (16 * (p + 1)) >= limit * (6 * (q * q) - 8 * q + 9) * p
  {
    var q, r := 4 * p, p * p;
    assert (6 * r - 8 * p + 9) * (16 * (p + 1)) == 96 * (r * p) - 32 * r + 16 * p + 144;
    assert (6 * (q * q) - 8 * q + 9) * p == 96 * (r * p) - 32 * r + 9 * p;
    assert limit * ((6 * r - 8 * p + 9) * (16 * (p + 1)) - (6 * (q * q) - 8 * q + 9) * p) >= 0;
  }

  lemma ReachedArithmetic(before: nat, after: int, p: nat, u: nat, limit: nat)
    requires p >= 4 && 6 * (p * p * before) + 12 * (p * p * u) >= limit * (6 * (p * p) - 8 * p + 9)
    requires p * after >= p * before + before - p * NORM_UNIT && 2 * u <= p * NORM_UNIT
    ensures var q := 4 * p;
      6 * (q * q * after) + 12 * (q * q * (u + NORM_UNIT)) >= limit * (6 * (q * q) - 8 * q + 9)
  {
    var q, r := 4 * p, p * p;
    var g, h := limit * (6 * r - 8 * p + 9), limit * (6 * (q * q) - 8 * q + 9);
    var had, sum := 6 * (r * before) + 12 * (r * u), 6 * (q * q * after) + 12 * (q * q * (u + NORM_UNIT));
    Products(p, before, after, u);
    Polynomials(p, limit);
    Cancelled(sum, h, p, had, g, 16 * (p + 1));
  }

  const REACHED_START: seq<nat> := [
    103795622280882, 207591244561763, 259489055702202, 275707121683588, 280015045459893, 281108854231219,
    281383374596678, 281452071709615, 281469250180787, 281473545060702
  ]

  const REACHED_LIMIT := 281474976710341 * NORM_UNIT

  ghost predicate RotationReaches(norm: int, k: nat)
  {
    if k < 10 then norm >= REACHED_START[k] * NORM_UNIT else Reached(norm, k, REACHED_LIMIT)
  }

  lemma StartReaches(before: nat, after: int, k: nat)
    requires k < 9 && before >= REACHED_START[k] * NORM_UNIT
    requires var p := Pow2(k) * Pow2(k); p * after >= p * before + before - p * NORM_UNIT
    ensures after >= REACHED_START[k + 1] * NORM_UNIT
  {
    hide Pow2;
    Powers();
    if k == 0 {
    } else if k == 1 {
    } else if k == 2 {
    } else if k == 3 {
    } else if k == 4 {
    } else if k == 5 {
    } else if k == 6 {
    } else if k == 7 {
    } else {
    }
  }

  lemma StartReached(norm: int)
    requires norm >= REACHED_START[9] * NORM_UNIT
    ensures Reached(norm, 9, REACHED_LIMIT)
  {
    Powers();
  }

  lemma {:induction false} RotationReachesStep(before: nat, after: int, k: nat)
    requires k < 32 && RotationReaches(before, k)
    requires var p := Pow2(k) * Pow2(k); p * after >= p * before + before - p * NORM_UNIT
    ensures RotationReaches(after, k + 1)
  {
    hide Reached, Pow2;
    if k < 9 {
      StartReaches(before, after, k);
    } else {
      if k == 9 {
        StartReached(before);
      }
      ReachedStep(before, after, k, REACHED_LIMIT);
    }
  }

  /** What every rotation keeps. */
  lemma {:induction false} RotationGrows(z: int, k: nat)
    requires Abs(z) <= QUARTER && k <= 32
    ensures RotationReaches(Norm(Rotated(Vector(START, 0, z), k)), k)
  {
    hide RotationReaches, Turned, Norm;
    if k == 0 {
      StartNorm(z);
    } else {
      RotationGrows(z, k - 1);
      RotationBounds(z, k - 1);
      var u := Rotated(Vector(START, 0, z), k - 1);
      NormStepLow(u, k - 1, u.z >= 0);
      NormIsNatural(u);
      RotationReachesStep(Norm(u), Norm(Rotated(Vector(START, 0, z), k)), k - 1);
    }
  }

  lemma {:induction false} StartNorm(z: int)
    ensures RotationReaches(Norm(Rotated(Vector(START, 0, z), 0)), 0)
  {
  }

  const LEAST_NORM := 281474976710270 * NORM_UNIT
  const GREATEST_NORM := 0x1_0000_0000_8040 * NORM_UNIT

  /** The squared length at the end of every rotation. */
  lemma {:induction false} EndNorm(z: int)
    requires Abs(z) <= QUARTER
    ensures LEAST_NORM <= Norm(Rotated(Vector(START, 0, z), 32)) <= GREATEST_NORM
  {
    hide Rotated, Norm, Reached, Limited, Pow2;
    RotationGrows(z, 32);
    RotationBounds(z, 32);
    var n := Norm(Rotated(Vector(START, 0, z), 32));
    NormIsNatural(Rotated(Vector(START, 0, z), 32));
    LimitedNorm(n, 32, ROTATION_LIMIT);
    ReachedNorm(n);
  }

  lemma ReachedNorm(norm: int)
    requires Reached(norm, 32, REACHED_LIMIT)
    ensures norm >= LEAST_NORM
  {
    hide Pow2;
    Powers31();
    assert Pow2(32) == 0x1_0000_0000 by {
      PowDoubles(31);
    }
  }

  // ---------------------------------------------------------------- quarter turns

  lemma {:induction false} RotatedBack(z: int)
    requires -QUARTER <= z < 0
    ensures Rotated(Vector(START, 0, z), 32) == QuarterBack(Rotated(Vector(START, 0, z + QUARTER), 32))
  {
    hide Rotated, Walk, Turns;
    FirstStep(z);
    FirstStep(z + QUARTER);
    RotatedWalks(Vector(START, 0, z), 1);
    RotatedWalks(Vector(START, 0, z + QUARTER), 1);
    BackWalk(Corner(z + EIGHTH), 1);
  }

  /** A quarter of a turn more makes the cosine the sine and the sine the cosine with its
      sign turned, exactly. */
  lemma QuarterTurn(a: int)
    ensures SinCos(a + ONE / 4) == Trig(SinCos(a).cs, -SinCos(a).sn)
  {
    hide Rotated, RoundDiv;
    var w := Wrap(a);
    var q, r := Reduce(w * ONE), Reduce(Wrap(a + ONE / 4) * ONE);
    WrapQuarter(a);
    if !OnAxis(w * ONE) {
      if q.z < 0 {
        RotatedBack(q.z);
      } else {
        RotatedBack(r.z);
      }
      var v := Rotated(Vector(START, 0, q.z), 32);
      RoundDivFlips(v.y, SCALE);
      RoundDivFlips(v.x, SCALE);
    }
  }

  lemma WrapQuarter(a: int)
    ensures Wrap(a + ONE / 4) == if Wrap(a) < 3 * (ONE / 4) then Wrap(a) + ONE / 4 else Wrap(a) - 3 * (ONE / 4)
  {
  }

  // ---------------------------------------------------------------- one quadrant

  lemma AxisMargin(v: Vector)
    requires Beyond(Axis, v, 32)
    ensures v.y * 0x8000_0000 >= Abs(v.x)
  {
    hide Pow2;
    Powers31();
    PowDoubles(31);
  }

  lemma DiagonalMargin(v: Vector)
    requires Beyond(Diagonal, v, 32)
    ensures (v.y - v.x) * 0x8000_0000 >= Abs(v.x + v.y)
  {
    hide Pow2;
    Powers31();
    PowDoubles(31);
  }

  /** A coordinate beyond the axis is not rounded to zero. */
  lemma NotRounded(v: Vector)
    requires Beyond(Axis, v, 32) && Norm(v) >= LEAST_NORM
    ensures v.y >= SCALE / 2 && RoundDiv(v.y, SCALE) >= 1
  {
    hide Beyond, RoundMagnitude, Norm;
    AxisMargin(v);
    if v.y < SCALE / 2 {
      TooShort(v);
    }
    RoundMagnitudeNearest(v.y, SCALE);
  }

  lemma TooShort(v: Vector)
    requires Abs(v.x) <= 0x800_0000_0000_0000 && Abs(v.y) <= SCALE
    ensures Norm(v) < LEAST_NORM
  {
    SquareAtMost(v.x, 0x800_0000_0000_0000);
    SquareAtMost(v.y, SCALE);
  }

  lemma TooClose(v: Vector)
    requires Abs(v.x + v.y) <= (SCALE - 1) * 0x8000_0000 && Abs(v.y - v.x) <= SCALE
    ensures Norm(v) < LEAST_NORM
  {
    SquareAtMost(v.x + v.y, (SCALE - 1) * 0x8000_0000);
    SquareAtMost(v.y - v.x, SCALE);
    assert (v.x + v.y) * (v.x + v.y) + (v.y - v.x) * (v.y - v.x) == 2 * Norm(v);
  }

  lemma SquareAtMost(x: int, bound: nat)
    requires Abs(x) <= bound
    ensures 0 <= x * x <= bound * bound
  {
    AbsProduct(x, x);
    MulMonotone(Abs(x), bound, Abs(x));
    MulMonotone(Abs(x), bound, bound);
  }

  /** Nor is the distance from the diagonal. */
  lemma NotTied(v: Vector)
    requires Beyond(Diagonal, v, 32) && Norm(v) >= LEAST_NORM && v.x >= 0 && v.y >= 0
    ensures RoundDiv(v.x, SCALE) < RoundDiv(v.y, SCALE)
  {
    hide Beyond, RoundMagnitude, Norm;
    DiagonalMargin(v);
    if v.y - v.x < SCALE {
      TooClose(v);
    }
    RoundMagnitudeMonotone(v.x + SCALE, v.y, SCALE);
    RoundOneMore(v.x);
  }

  lemma RoundOneMore(n: nat)
    ensures RoundMagnitude(n + SCALE, SCALE) == RoundMagnitude(n, SCALE) + 1
  {
    hide RoundMagnitude;
    RoundMagnitudeNearest(n, SCALE);
    RoundMagnitudeUnique(n + SCALE, SCALE, RoundMagnitude(n, SCALE) + 1);
  }

  /** Where the vector of an angle in the first quadrant ends, and what is read from it. */
  lemma FirstVector(w: int)
    requires 0 < w < ONE / 4
    ensures var v := Rotated(Vector(START, 0, w * ONE), 32);
      && SinCos(w) == Trig(RoundDiv(v.y, SCALE), RoundDiv(v.x, SCALE))
      && LEAST_NORM <= Norm(v) <= GREATEST_NORM
      && Beyond(Axis, v, 32) && Beyond(Axis, Swapped(v), 32)
      && (w > ONE / 8 ==> Beyond(Diagonal, v, 32)) && (w < ONE / 8 ==> Beyond(Diagonal, Swapped(v), 32))
      && (w == ONE / 8 ==> v == DIAGONAL_END)
  {
    hide Rotated, Beyond, Norm, RoundDiv, Swapped;
    FirstQuadrant(w * ONE);
    EndNorm(w * ONE);
  }

  lemma DiagonalEnd()
    ensures RoundDiv(DIAGONAL_END.x, SCALE) == RoundDiv(DIAGONAL_END.y, SCALE)
  {
  }

  /** The first quadrant: both positive, the larger one by octants, equal on the diagonal. */
  lemma FirstQuarter(w: int)
    requires 0 < w < ONE / 4
    ensures var t := SinCos(w);
      && t.sn > 0 && t.cs > 0
      && (w < ONE / 8 ==> t.sn < t.cs) && (w > ONE / 8 ==> t.sn > t.cs) && (w == ONE / 8 ==> t.sn == t.cs)
  {
    hide Rotated, Beyond, Norm, SinCos, RoundDiv, Swapped;
    var v := Rotated(Vector(START, 0, w * ONE), 32);
    FirstVector(w);
    NormSwaps(v);
    NotRounded(v);
    NotRounded(Swapped(v));
    if w > ONE / 8 {
      NotTied(v);
    } else if w < ONE / 8 {
      NotTied(Swapped(v));
    } else {
      DiagonalEnd();
    }
  }

  lemma NormSwaps(v: Vector)
    ensures Norm(Swapped(v)) == Norm(v) && Swapped(v).x == v.y && Swapped(v).y == v.x
  {
  }

  // ---------------------------------------------------------------- every angle

  /** What quarter turns say of the angle a quarter of a turn back. */
  lemma QuarterEarlier(a: int)
    ensures var w, b := a % ONE, (a - ONE / 4) % ONE;
      b == if w < ONE / 4 then w + 3 * (ONE / 4) else w - ONE / 4
    ensures SinCos(a) == Trig(SinCos(a - ONE / 4).cs, -SinCos(a - ONE / 4).sn)
  {
    hide SinCos;
    WrapQuarter(a - ONE / 4);
    QuarterTurn(a - ONE / 4);
    assert a - ONE / 4 + ONE / 4 == a;
  }

  lemma SinCosWraps(a: int)
    ensures SinCos(a) == SinCos(a % ONE)
  {
    hide Rotated, RoundDiv;
    assert Wrap(a % ONE) == Wrap(a);
  }

  lemma OnTheAxis()
    ensures SinCos(0) == Trig(0, ONE)
  {
    hide Rotated, RoundDiv;
  }

  /** Every sine and cosine has the sign of its quadrant, and is zero on the axis alone. */
  lemma {:induction false} Quadrants(a: int)
    ensures var w, t := a % ONE, SinCos(a);
      && (t.sn > 0 <==> 0 < w < ONE / 2) && (t.sn < 0 <==> ONE / 2 < w)
      && (t.cs > 0 <==> w < ONE / 4 || 3 * (ONE / 4) < w) && (t.cs < 0 <==> ONE / 4 < w < 3 * (ONE / 4))
    decreases a % ONE
  {
    hide SinCos;
    var w := a % ONE;
    if w >= ONE / 4 {
      QuarterEarlier(a);
      Quadrants(a - ONE / 4);
    } else {
      SinCosWraps(a);
      OnTheAxis();
      if w > 0 {
        FirstQuarter(w);
      }
    }
  }

  lemma RemainderIs(a: int, k: int, r: nat)
    requires r < ONE / 2 && a == k * (ONE / 2) + r
    ensures a % (ONE / 2) == r
  {
  }

  lemma HalfModulus(a: int)
    ensures a % (ONE / 2) == if a % ONE < ONE / 2 then a % ONE else a % ONE - ONE / 2
  {
    var q, r := a / ONE, a % ONE;
    if r < ONE / 2 {
      RemainderIs(a, 2 * q, r);
    } else {
      RemainderIs(a, 2 * q + 1, r - ONE / 2);
    }
  }

  /** The cosine is the larger one in the octants beside the x axis, the sine in those
      beside the y axis, and on the diagonals alone they are of one size. */
  lemma {:induction false} Octants(a: int)
    ensures var w, t := a % (ONE / 2), SinCos(a);
      && (Abs(t.cs) > Abs(t.sn) <==> w < ONE / 8 || 3 * (ONE / 8) < w)
      && (Abs(t.cs) < Abs(t.sn) <==> ONE / 8 < w < 3 * (ONE / 8))
    decreases a % ONE
  {
    hide SinCos;
    var w := a % ONE;
    HalfModulus(a);
    if w >= ONE / 4 {
      QuarterEarlier(a);
      Octants(a - ONE / 4);
      HalfModulus(a - ONE / 4);
    } else {
      SinCosWraps(a);
      OnTheAxis();
      if w > 0 {
        FirstQuarter(w);
      }
    }
  }

  // ---------------------------------------------------------------- the circle

  lemma RoundedNear(n: nat)
    ensures var r := RoundDiv(n, SCALE); r >= 0 && (2 * r - 1) * SCALE <= 2 * n < (2 * r + 1) * SCALE
  {
    hide RoundMagnitude;
    RoundMagnitudeNearest(n, SCALE);
  }

  lemma SquaresOrdered(a: nat, b: nat)
    requires a <= b
    ensures a * a <= b * b
  {
    MulMonotone(a, b, a);
    MulMonotone(a, b, b);
  }

  lemma SumBound(s: nat, c: nat, k: nat)
    requires 2 * (s * s + c * c) < k * k
    ensures s + c < k
  {
    assert (s + c) * (s + c) + (s - c) * (s - c) == 2 * (s * s + c * c);
    SquareAtMost(s - c, Abs(s - c));
    if s + c >= k {
      SquaresOrdered(k, s + c);
    }
  }

  /** A tenth more than the square root of two halves of the unit. */
  const DIAGONAL_SUM := 3_040_000_000

  lemma Expanded(c: nat)
    ensures (2 * c - 1) * SCALE * ((2 * c - 1) * SCALE) == SCALE * SCALE * (4 * (c * c) - 4 * c + 1)
    ensures (2 * c + 1) * SCALE * ((2 * c + 1) * SCALE) == SCALE * SCALE * (4 * (c * c) + 4 * c + 1)
  {
  }

  lemma RoundedSquare(x: nat, c: nat)
    requires 1 <= c && (2 * c - 1) * SCALE <= 2 * x < (2 * c + 1) * SCALE
    ensures SCALE * SCALE * (4 * (c * c) - 4 * c + 1) <= 4 * (x * x) <= SCALE * SCALE * (4 * (c * c) + 4 * c + 1)
  {
    SquaresOrdered((2 * c - 1) * SCALE, 2 * x);
    SquaresOrdered(2 * x, (2 * c + 1) * SCALE);
    Expanded(c);
  }

  lemma WithinUnit(norm: nat, s: nat, c: nat, n: nat)
    requires LEAST_NORM <= norm <= GREATEST_NORM && c <= ONE && s <= ONE && n == s * s + c * c
    requires SCALE * SCALE * (4 * n - 4 * (s + c) + 2) <= 4 * norm <= SCALE * SCALE * (4 * n + 4 * (s + c) + 2)
    ensures (ONE - 1) * (ONE - 1) < n < (ONE + 1) * (ONE + 1)
  {
    if 2 * n < DIAGONAL_SUM * DIAGONAL_SUM {
      SumBound(s, c, DIAGONAL_SUM);
    }
  }

  /** Rounded coordinates of a point on the circle are within one unit of it. */
  lemma RoundedCircle(x: nat, y: nat, c: nat, s: nat)
    requires LEAST_NORM <= x * x + y * y <= GREATEST_NORM && 1 <= c <= ONE && 1 <= s <= ONE
    requires (2 * c - 1) * SCALE <= 2 * x < (2 * c + 1) * SCALE
    requires (2 * s - 1) * SCALE <= 2 * y < (2 * s + 1) * SCALE
    ensures (ONE - 1) * (ONE - 1) < s * s + c * c < (ONE + 1) * (ONE + 1)
  {
    RoundedSquare(x, c);
    RoundedSquare(y, s);
    WithinUnit(x * x + y * y, s, c, s * s + c * c);
  }

  lemma CircleFirst(w: int)
    requires 0 < w < ONE / 4
    ensures var t := SinCos(w); (ONE - 1) * (ONE - 1) < t.sn * t.sn + t.cs * t.cs < (ONE + 1) * (ONE + 1)
  {
    hide Rotated, Beyond, SinCos, RoundDiv;
    var v := Rotated(Vector(START, 0, w * ONE), 32);
    FirstVector(w);
    FirstQuarter(w);
    SinCosBound(w);
    NormSwaps(v);
    NotRounded(v);
    NotRounded(Swapped(v));
    RoundedNear(v.x);
    RoundedNear(v.y);
    RoundedCircle(v.x, v.y, RoundDiv(v.x, SCALE), RoundDiv(v.y, SCALE));
  }

  /** For every angle the point of the cosine and the sine is less than one unit inside
      and less than one unit outside of the circle. */
  lemma {:induction false} Circle(a: int)
    ensures var t := SinCos(a); (ONE - 1) * (ONE - 1) < t.sn * t.sn + t.cs * t.cs < (ONE + 1) * (ONE + 1)
    decreases a % ONE
  {
    hide SinCos;
    var w := a % ONE;
    if w >= ONE / 4 {
      QuarterEarlier(a);
      Circle(a - ONE / 4);
      SquareOfNegative(SinCos(a - ONE / 4).sn);
    } else {
      SinCosWraps(a);
      OnTheAxis();
      if w > 0 {
        CircleFirst(w);
      }
    }
  }

  lemma SquareOfNegative(a: int)
    ensures -a * -a == a * a
  {
  }
}
