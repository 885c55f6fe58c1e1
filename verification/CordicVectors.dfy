/** Which angle the CORDIC of libs/fieldctrl/src/cordic.c gives a vector: the quadrant
    and the octant are those of its components, without exception. */
module CordicVectors {
  import opened Fixed
  import opened Cordic
  import opened CordicOctants

  // ---------------------------------------------------------------- what is left to add

  /** All angles from step `k` on. */
  function Rest(k: nat): nat
    decreases 32 - k
  {
    if k < 32 then ATAN_TURNS[k] + Rest(k + 1) else 0
  }

  predicate Falls(k: nat)
    requires 2 <= k < 32
  {
    var p, before, here := Pow2(k), ATAN_TURNS[k - 1], ATAN_TURNS[k];
    (2 * here - before - 1) * (p * p) + here <= 4 * before
  }

  lemma FallTable(k: nat)
    requires 2 <= k < 32
    ensures Falls(k)
  {
    hide Falls;
    if k < 5 {
      FallTable2(k);
    } else if k < 8 {
      FallTable5(k);
    } else if k < 12 {
      FallTable8(k);
    } else if k < 16 {
      FallTable12(k);
    } else if k < 20 {
      FallTable16(k);
    } else if k < 24 {
      FallTable20(k);
    } else {
      FallTable24(k);
    }
  }

  lemma FallTable2(k: nat)
    requires 2 <= k < 5
    ensures Falls(k)
  {
    hide Pow2;
    Powers31();
    assert Falls(2) && Falls(3);
    assert Falls(4);
  }

  lemma FallTable5(k: nat)
    requires 5 <= k < 8
    ensures Falls(k)
  {
    hide Pow2;
    Powers31();
    assert Falls(5) && Falls(6);
    assert Falls(7);
  }

  lemma FallTable8(k: nat)
    requires 8 <= k < 12
    ensures Falls(k)
  {
    hide Pow2;
    Powers31();
    assert Falls(8) && Falls(9);
    assert Falls(10) && Falls(11);
  }

  lemma FallTable12(k: nat)
    requires 12 <= k < 16
    ensures Falls(k)
  {
    hide Pow2;
    Powers31();
    assert Falls(12) && Falls(13);
    assert Falls(14) && Falls(15);
  }

  lemma FallTable16(k: nat)
    requires 16 <= k < 20
    ensures Falls(k)
  {
    hide Pow2;
    Powers31();
    assert Falls(16) && Falls(17);
    assert Falls(18) && Falls(19);
  }

  lemma FallTable20(k: nat)
    requires 20 <= k < 24
    ensures Falls(k)
  {
    hide Pow2;
    Powers31();
    assert Falls(20) && Falls(21);
    assert Falls(22) && Falls(23);
  }

  lemma FallTable24(k: nat)
    requires 24 <= k < 32
    ensures Falls(k)
  {
    hide Pow2;
    Powers31();
    assert Falls(24) && Falls(25);
    assert Falls(26) && Falls(27);
    assert Falls(28) && Falls(29);
    assert Falls(30) && Falls(31);
  }

  /** The angles behind a step are hardly more than its own. */
  lemma {:induction false} RestBound(k: nat)
    requires 1 <= k < 32
    ensures var q := Pow2(k) * Pow2(k);
      (Rest(k + 1) + 300_000_000 - (31 - k)) * q <= ATAN_TURNS[k] * q + ATAN_TURNS[k]
    decreases 32 - k
  {
    hide Pow2, Rest, Falls;
    var q := Pow2(k) * Pow2(k);
    if k == 31 {
      LastRest();
      MulMonotone(300_000_000, ATAN_TURNS[31], q);
    } else {
      RestBound(k + 1);
      FallTable(k + 1);
      RestStep(k);
      FourTimes(k);
      FallsIs(k + 1, 4 * q);
      RestArithmetic(Rest(k + 1), Rest(k + 2), ATAN_TURNS[k], ATAN_TURNS[k + 1], q, 300_000_000 - (30 - k));
    }
  }

  lemma FourTimes(k: nat)
    ensures Pow2(k + 1) * Pow2(k + 1) == 4 * (Pow2(k) * Pow2(k))
  {
    hide Pow2;
    PowDoubles(k);
  }

  lemma FallsIs(k: nat, q: nat)
    requires 2 <= k < 32 && q == Pow2(k) * Pow2(k) && Falls(k)
    ensures (2 * ATAN_TURNS[k] - ATAN_TURNS[k - 1] - 1) * q + ATAN_TURNS[k] <= 4 * ATAN_TURNS[k - 1]
  {
    hide Pow2;
  }

  lemma LastRest()
    ensures Rest(32) == 0 && ATAN_TURNS[31] == 341782638
  {
  }

  lemma RestStep(k: nat)
    requires k < 31
    ensures Rest(k + 1) == ATAN_TURNS[k + 1] + Rest(k + 2)
  {
  }

  lemma RestArithmetic(rest: nat, later: nat, before: nat, here: nat, q: nat, c: int)
    requires rest == here + later && (later + c) * (4 * q) <= here * (4 * q) + here && q > 0
    requires (2 * here - before - 1) * (4 * q) + here <= 4 * before
    ensures (rest + c - 1) * q <= before * q + before
  {
    assert (rest + c - 1) * (4 * q) == (later + c) * (4 * q) + here * (4 * q) - 4 * q;
    assert (2 * here - before - 1) * (4 * q) == 2 * (here * (4 * q)) - before * (4 * q) - 4 * q;
    assert (rest + c - 1) * (4 * q) == 4 * ((rest + c - 1) * q);
    assert before * (4 * q) == 4 * (before * q);
  }

  // ---------------------------------------------------------------- vectoring from a step on

  /** `Vectored` from step `i` to the end. */
  function Chase(v: Vector, i: nat): Vector
    requires i <= 32
    decreases 32 - i
  {
    if i == 32 then v else Chase(VectoringStep(v, i), i + 1)
  }

  lemma {:induction false} VectoredChases(v: Vector, k: nat)
    requires k <= 32
    ensures Chase(Vectored(v, k), k) == Vectored(v, 32)
    decreases 32 - k
  {
    hide VectoringStep;
    if k < 32 {
      VectoredChases(v, k + 1);
      OneVectoring(v, k);
    }
  }

  lemma Triangle(a: int, b: int)
    ensures Abs(a) <= Abs(a - b) + Abs(b) && Abs(a + b) <= Abs(a) + Abs(b) && Abs(a - b) <= Abs(a) + Abs(b)
  {
  }

  lemma StepAngle(v: Vector, i: nat)
    requires i < 32
    ensures Abs(VectoringStep(v, i).z - v.z) <= ATAN_TURNS[i]
  {
    hide CoordShift;
  }

  lemma {:induction false} ChaseAngle(v: Vector, i: nat)
    requires i <= 32
    ensures Abs(Chase(v, i).z - v.z) <= Rest(i)
    decreases 32 - i
  {
    hide VectoringStep;
    if i < 32 {
      ChaseAngle(VectoringStep(v, i), i + 1);
      StepAngle(v, i);
      Triangle(Chase(v, i).z - VectoringStep(v, i).z, VectoringStep(v, i).z - v.z);
    }
  }

  lemma {:induction false} ChaseStays(v: Vector, i: nat)
    requires i <= 32 && v.y == 0
    ensures Chase(v, i) == v
    decreases 32 - i
  {
    if i < 32 {
      ChaseStays(v, i + 1);
    }
  }

  // ---------------------------------------------------------------- along a path

  /** What truncation can do in one step to products with coordinates of the start. */
  const UNIT := 0x4000_0000_0000_0000

  /** The vector is the start (x0, y0) turned back by as much as the path has turned
      forward, with the gain they share. */
  predicate Follows(v: Vector, u: Vector, x0: int, y0: int, i: nat)
  {
    && Abs(START * v.y - (y0 * u.x - x0 * u.y)) <= 8 * i * UNIT
    && Abs(START * v.x - (x0 * u.x + y0 * u.y)) <= 8 * i * UNIT
  }

  /** A sum of products with truncated quotients. */
  lemma Mixed(j: int, k: int, l: int, a: int, b: int, c: int, d: int, e: int, f: int, p: nat, r: int, s: int, t: int)
    requires a == d * p + r && b == e * p + s && c == f * p + t
    requires Abs(r) <= p && Abs(s) <= p && Abs(t) <= p && Abs(j) + Abs(k) + Abs(l) <= UNIT
    ensures Abs(p * (j * d + k * e + l * f) - (j * a + k * b + l * c)) <= UNIT * p
  {
    Share(j, a, d, p, r);
    Share(k, b, e, p, s);
    Share(l, c, f, p, t);
    assert p * (j * d + k * e + l * f) == p * (j * d) + p * (k * e) + p * (l * f);
    assert (Abs(j) + Abs(k) + Abs(l)) * p == Abs(j) * p + Abs(k) * p + Abs(l) * p;
    MulMonotone(Abs(j) + Abs(k) + Abs(l), UNIT, p);
  }

  lemma Share(j: int, a: int, d: int, p: nat, r: int)
    requires a == d * p + r && Abs(r) <= p
    ensures Abs(p * (j * d) - j * a) <= Abs(j) * p
  {
    assert j * a == j * (d * p) + j * r;
    assert p * (j * d) == j * (d * p);
    AbsProduct(j, r);
    MulMonotone(Abs(r), p, Abs(j));
  }

  lemma AtMostEight(b: nat, p: nat, unit: nat, q: nat, e: nat)
    requires p > 0 && q == unit * p && p * b <= q + e && e <= 4 * q
    ensures b <= 8 * unit
  {
    if b > 8 * unit {
      Gap(b, 8 * unit, p);
    }
  }

  lemma OneStep(p: nat, i: nat, part: int, whole: int, unit: nat)
    requires p >= 2 * i && p > 0 && Abs(whole) <= 8 * i * unit && Abs(p * part - whole) <= unit * p
    ensures Abs(part) <= 8 * unit
  {
    hide Abs;
    MulMonotone(2 * i, p, 4 * unit);
    Triangle(p * part, whole);
    AbsProduct(p, part);
    AbsPositive(p);
    AtMostEight(Abs(part), p, unit, unit * p, 8 * i * unit);
  }

  lemma PowerLarge(i: nat)
    requires i >= 1
    ensures Pow2(i) >= 2 * i
  {
    if i > 1 {
      PowerLarge(i - 1);
    }
  }

  lemma UnitFits(x0: int, y0: int)
    requires 0 <= x0 <= QUARTER && 0 <= y0 <= QUARTER
    ensures Abs(START) + Abs(-x0) + Abs(-y0) <= UNIT && Abs(START) + Abs(x0) + Abs(-y0) <= UNIT
  {
  }

  lemma SignsOut(g: int, x0: int, y0: int, d: int, a: int, b: int)
    ensures g * d + -x0 * a + -y0 * b == g * d - x0 * a - y0 * b == g * d - (x0 * a + y0 * b)
    ensures g * d + x0 * b + -y0 * a == g * d + x0 * b - y0 * a == g * d - (y0 * a - x0 * b)
  {
  }

  lemma {:induction false} Turning(v: Vector, u: Vector, x0: int, y0: int, i: nat)
    requires 1 <= i < 32 && Follows(v, u, x0, y0, i) && 0 <= x0 <= QUARTER && 0 <= y0 <= QUARTER
    ensures var dx, dy, ex, ey := CoordShift(v.x, i), CoordShift(v.y, i), CoordShift(u.x, i), CoordShift(u.y, i);
      Abs(START * dx - x0 * ex - y0 * ey) <= 8 * UNIT && Abs(START * dy + x0 * ey - y0 * ex) <= 8 * UNIT
  {
    hide Pow2, CoordShift, Abs;
    var p := Pow2(i);
    var dx, dy, ex, ey := CoordShift(v.x, i), CoordShift(v.y, i), CoordShift(u.x, i), CoordShift(u.y, i);
    var r := ShiftBounds(v.x, i);
    var s := ShiftBounds(v.y, i);
    var t := ShiftBounds(u.x, i);
    var w := ShiftBounds(u.y, i);
    PowerLarge(i);
    UnitFits(x0, y0);
    Mixed(START, -x0, -y0, v.x, u.x, u.y, dx, ex, ey, p, r, t, w);
    Mixed(START, x0, -y0, v.y, u.y, u.x, dy, ey, ex, p, s, w, t);
    SignsOut(START, x0, y0, v.x, u.x, u.y);
    SignsOut(START, x0, y0, dx, ex, ey);
    SignsOut(START, x0, y0, v.y, u.x, u.y);
    SignsOut(START, x0, y0, dy, ex, ey);
    OneStep(p, i, START * dx + -x0 * ex + -y0 * ey, START * v.x + -x0 * u.x + -y0 * u.y, UNIT);
    OneStep(p, i, START * dy + x0 * ey + -y0 * ex, START * v.y + x0 * u.y + -y0 * u.x, UNIT);
  }

  /** The two differences after a turn, for either direction `f`. */
  lemma Differences(g: int, x: int, y: int, a: int, b: int, x0: int, y0: int, dx: int, dy: int, ex: int, ey: int)
    ensures g * (y - dx) - (y0 * (a - ey) - x0 * (b + ex)) == g * y - (y0 * a - x0 * b) - (g * dx - x0 * ex - y0 * ey)
    ensures g * (x + dy) - (x0 * (a - ey) + y0 * (b + ex)) == g * x - (x0 * a + y0 * b) + (g * dy + x0 * ey - y0 * ex)
  {
    assert g * (y - dx) == g * y - g * dx && g * (x + dy) == g * x + g * dy;
    assert y0 * (a - ey) == y0 * a - y0 * ey && x0 * (a - ey) == x0 * a - x0 * ey;
    assert x0 * (b + ex) == x0 * b + x0 * ex && y0 * (b + ex) == y0 * b + y0 * ex;
  }

  /** What the differences are after a turn by these shares. */
  lemma ShiftedOn(v: Vector, u: Vector, x0: int, y0: int, i: nat, dx: int, dy: int, ex: int, ey: int)
    requires Follows(v, u, x0, y0, i)
    requires Abs(START * dx - x0 * ex - y0 * ey) <= 8 * UNIT && Abs(START * dy + x0 * ey - y0 * ex) <= 8 * UNIT
    ensures Follows(Vector(v.x + dy, v.y - dx, 0), Vector(u.x - ey, u.y + ex, 0), x0, y0, i + 1)
  {
    hide Abs;
    Differences(START, v.x, v.y, u.x, u.y, x0, y0, dx, dy, ex, ey);
    Triangle(START * v.y - (y0 * u.x - x0 * u.y), START * dx - x0 * ex - y0 * ey);
    Triangle(START * v.x - (x0 * u.x + y0 * u.y), START * dy + x0 * ey - y0 * ex);
  }

  lemma ShiftedBack(v: Vector, u: Vector, x0: int, y0: int, i: nat, dx: int, dy: int, ex: int, ey: int)
    requires Follows(v, u, x0, y0, i)
    requires Abs(START * dx - x0 * ex - y0 * ey) <= 8 * UNIT && Abs(START * dy + x0 * ey - y0 * ex) <= 8 * UNIT
    ensures Follows(Vector(v.x - dy, v.y + dx, 0), Vector(u.x + ey, u.y - ex, 0), x0, y0, i + 1)
  {
    Opposites(START, x0, y0, dx, ex, ey);
    Opposites(START, x0, y0, dy, ex, ey);
    ShiftedOn(v, u, x0, y0, i, -dx, -dy, -ex, -ey);
  }

  lemma Opposites(g: int, x0: int, y0: int, d: int, ex: int, ey: int)
    ensures g * -d - x0 * -ex - y0 * -ey == -(g * d - x0 * ex - y0 * ey)
    ensures g * -d + x0 * -ey - y0 * -ex == -(g * d + x0 * ey - y0 * ex)
  {
  }

  lemma AngleFree(v: Vector, u: Vector, x0: int, y0: int, i: nat)
    requires Follows(v, u, x0, y0, i)
    ensures forall a, b :: Follows(v.(z := a), u.(z := b), x0, y0, i)
  {
  }

  /** Both turn by the same angle, one back and one forward. */
  lemma {:induction false} FollowsStep(v: Vector, u: Vector, x0: int, y0: int, i: nat, forward: bool)
    requires 1 <= i < 32 && Follows(v, u, x0, y0, i) && 0 <= x0 <= QUARTER && 0 <= y0 <= QUARTER
    ensures Follows(Turned(v, i, !forward), Turned(u, i, forward), x0, y0, i + 1)
  {
    hide CoordShift, Abs, Follows;
    var dx, dy, ex, ey := CoordShift(v.x, i), CoordShift(v.y, i), CoordShift(u.x, i), CoordShift(u.y, i);
    Turning(v, u, x0, y0, i);
    if forward {
      ShiftedOn(v, u, x0, y0, i, dx, dy, ex, ey);
      AngleFree(Vector(v.x + dy, v.y - dx, 0), Vector(u.x - ey, u.y + ex, 0), x0, y0, i + 1);
    } else {
      ShiftedBack(v, u, x0, y0, i, dx, dy, ex, ey);
      AngleFree(Vector(v.x - dy, v.y + dx, 0), Vector(u.x + ey, u.y - ex, 0), x0, y0, i + 1);
    }
  }

  /** A vector whose start is beyond the line is above the axis wherever the path has not
      passed the line. */
  lemma AboveAxis(l: Line, v: Vector, u: Vector, x0: int, y0: int, i: nat)
    requires Follows(v, u, x0, y0, i) && i < 32 && x0 >= 0 && y0 >= SCALE && Height(l, Vector(x0, y0, 0)) >= SCALE
    requires Height(l, u) <= 0 && u.x >= START
    ensures v.y > 0
  {
    var d := Height(l, Vector(x0, y0, 0));
    MulMonotone(SCALE, d, START);
    MulMonotone(START, u.x, d);
    if l == Axis {
      ProductSign(x0, u.y);
    } else {
      ProductSign(x0, u.y - u.x);
      assert y0 * u.x - x0 * u.y == d * u.x - x0 * (u.y - u.x);
    }
    Positive(v.y, y0 * u.x - x0 * u.y);
  }

  lemma ProductSign(a: int, b: int)
    requires a >= 0 && b <= 0
    ensures a * b <= 0
  {
  }

  lemma Positive(y: int, product: int)
    requires product >= SCALE * START && Abs(START * y - product) <= 8 * 32 * UNIT
    ensures y > 0
  {
  }

  /** Vectoring of a start beyond the line adds up at least the angle of the line: it
      turns like the path of the line, or more. */
  lemma {:induction false} Guided(l: Line, v: Vector, u: Vector, i: nat, x0: int, y0: int, end: Vector)
    requires 1 <= i <= 32 && Clear(l, u, i, end) && end.z <= 0 && Follows(v, u, x0, y0, i)
    requires 0 <= x0 <= QUARTER && SCALE <= y0 <= QUARTER && Height(l, Vector(x0, y0, 0)) >= SCALE
    ensures Chase(v, i).z >= v.z + u.z
    decreases 32 - i
  {
    hide Follows, Beyond, Height, Pow2, Turned;
    if i < 32 {
      if u.z >= 0 {
        AboveAxis(l, v, u, x0, y0, i);
        FollowsStep(v, u, x0, y0, i, true);
        TurnedAngle(v, i);
        TurnedAngle(u, i);
        Guided(l, Turned(v, i, false), Turned(u, i, true), i + 1, x0, y0, end);
      } else if v.y < 0 {
        FollowsStep(v, u, x0, y0, i, false);
        TurnedAngle(v, i);
        TurnedAngle(u, i);
        Guided(l, Turned(v, i, true), Turned(u, i, false), i + 1, x0, y0, end);
      } else if v.y == 0 {
        ChaseStays(v, i);
      } else {
        TurnedAngle(v, i);
        ChaseAngle(Turned(v, i, false), i + 1);
        LeftForGood(u.z, i);
      }
    }
  }

  lemma TurnedAngle(v: Vector, i: nat)
    requires i < 32
    ensures Turned(v, i, true).z == v.z - ATAN_TURNS[i] && Turned(v, i, false).z == v.z + ATAN_TURNS[i]
  {
    hide CoordShift;
  }

  lemma LeftForGood(z: int, i: nat)
    requires 1 <= i < 32 && -z * (Pow2(i) * Pow2(i)) >= ATAN_TURNS[i]
    ensures ATAN_TURNS[i] - Rest(i + 1) >= z
  {
    hide Pow2, Rest;
    RestBound(i);
    var q := Pow2(i) * Pow2(i);
    var rest := Rest(i + 1);
    if ATAN_TURNS[i] - rest < z {
      Gap(rest + z, ATAN_TURNS[i], q);
    }
  }

  // ---------------------------------------------------------------- the first quadrant

  /** The other side of the axis, with the angle counted down from `c`. */
  function Across(v: Vector, c: int): Vector
  {
    Vector(v.x, -v.y, c - v.z)
  }

  lemma AcrossStep(v: Vector, i: nat, c: int)
    requires i < 32
    ensures VectoringStep(Across(v, c), i) == Across(VectoringStep(v, i), c)
  {
    hide CoordShift;
    ShiftFlips(v.y, i);
  }

  lemma {:induction false} ChaseAcross(v: Vector, i: nat, c: int)
    requires i <= 32
    ensures Chase(Across(v, c), i) == Across(Chase(v, i), c)
    decreases 32 - i
  {
    hide VectoringStep, Across;
    if i < 32 {
      AcrossStep(v, i, c);
      ChaseAcross(VectoringStep(v, i), i + 1, c);
    }
  }

  /** The first step turns by an eighth of a turn, exactly. */
  function Second(x0: int, y0: int): Vector
  {
    Vector(x0 + y0, y0 - x0, EIGHTH)
  }

  lemma SecondIs(x0: int, y0: int)
    requires y0 > 0
    ensures Vectored(Vector(x0, y0, 0), 32) == Chase(Second(x0, y0), 1)
  {
    hide Chase;
    VectoredChases(Vector(x0, y0, 0), 1);
    assert Vectored(Vector(x0, y0, 0), 0) == Vector(x0, y0, 0);
    assert CoordShift(x0, 0) == x0 && CoordShift(y0, 0) == y0;
  }

  lemma SecondFollows(x0: int, y0: int, z: int)
    ensures Follows(Second(x0, y0), Corner(z), x0, y0, 1)
  {
    assert START * (y0 - x0) == y0 * START - x0 * START && START * (x0 + y0) == x0 * START + y0 * START;
  }

  /** The angle of a vector above the axis, against an eighth of a turn. */
  lemma {:induction false} AngleAbove(x0: int, y0: int)
    requires 0 <= x0 <= QUARTER && SCALE <= y0 <= QUARTER
    ensures var z := Vectored(Vector(x0, y0, 0), 32).z;
      z >= 0 && (y0 - x0 >= SCALE ==> z >= EIGHTH) && (y0 == x0 ==> z == EIGHTH)
  {
    hide Vectored, Chase, Clear, Follows;
    SecondIs(x0, y0);
    AxisClear1();
    DiagonalClear1();
    SecondFollows(x0, y0, -EIGHTH);
    Guided(Axis, Second(x0, y0), Corner(-EIGHTH), 1, x0, y0, AXIS_END);
    if y0 - x0 >= SCALE {
      SecondFollows(x0, y0, 0);
      Guided(Diagonal, Second(x0, y0), Corner(0), 1, x0, y0, DIAGONAL_END);
    } else if y0 == x0 {
      ChaseStays(Second(x0, y0), 1);
    }
  }

  /** Exchanged coordinates have angles that add up to a quarter of a turn, exactly. */
  lemma {:induction false} Complement(x0: int, y0: int)
    requires x0 > 0 && y0 > 0
    ensures Vectored(Vector(x0, y0, 0), 32).z + Vectored(Vector(y0, x0, 0), 32).z == QUARTER
  {
    hide Vectored, Chase;
    SecondIs(x0, y0);
    SecondIs(y0, x0);
    assert Across(Second(x0, y0), QUARTER) == Second(y0, x0);
    ChaseAcross(Second(x0, y0), 1, QUARTER);
  }

  lemma AngleBetween(z: int, lo: nat, hi: nat)
    requires lo * ONE <= z <= hi * ONE && hi < ONE
    ensures lo <= Angle(z) <= hi
  {
    hide RoundDiv;
    RoundDivMonotone(lo * ONE, z, ONE);
    RoundDivMonotone(z, hi * ONE, ONE);
    RoundDivExact(lo, ONE);
    RoundDivExact(hi, ONE);
  }

  /** What the sizes say: below and above the diagonal. */
  ghost predicate InFirst(fy: int, fx: int, a: int)
  {
    && 0 <= a <= ONE / 4
    && (fy <= fx ==> a <= ONE / 8) && (fy >= fx ==> a >= ONE / 8)
  }

  /** Ratios of the larger component. */
  lemma Ratios(fy: int, fx: int)
    requires fx > 0 && fy > 0
    ensures var l := Largest(fy, fx); var x, y := RoundDiv(fx * ONE, l), RoundDiv(fy * ONE, l);
      && 0 <= x <= ONE && 0 <= y <= ONE && Start(fy, fx) == Vector(x * SCALE, y * SCALE, 0)
      && (fy <= fx ==> y <= x && x == ONE) && (fy >= fx ==> y >= x && y == ONE)
  {
    hide RoundDiv;
    var l := Largest(fy, fx);
    UnitRatio(fx, l);
    UnitRatio(fy, l);
    RoundDivExact(0, l);
    RoundDivMonotone(0, fx * ONE, l);
    RoundDivMonotone(0, fy * ONE, l);
    RoundDivExact(ONE, l);
  }

  lemma {:induction false} FirstAngle(x: nat, y: nat)
    requires x <= ONE && y <= ONE && x + y > 0
    ensures var z := Vectored(Vector(x * SCALE, y * SCALE, 0), 32).z;
      && (y == 0 ==> z == 0)
      && (x > 0 && y > 0 ==>
            0 <= z <= QUARTER && (y <= x ==> z <= EIGHTH) && (y >= x ==> z >= EIGHTH))
  {
    hide Vectored;
    if y == 0 {
      NoVectoring(Vector(x * SCALE, 0, 0));
      OnAxisStays(Vector(x * SCALE, 0, 0), 0, 32);
    } else if x > 0 {
      AngleAbove(x * SCALE, y * SCALE);
      AngleAbove(y * SCALE, x * SCALE);
      Complement(x * SCALE, y * SCALE);
    }
  }

  lemma Atan2Is(fy: int, fx: int)
    requires fx != 0 && fy != 0 && fx != INT64_MIN && fy != INT64_MIN
    ensures Atan2(fy, fx) == Result(Angle(Vectored(Start(fy, fx), 32).z), OK)
  {
    hide Angle, Vectored, Start;
  }

  /** The angle before it is rounded; along the y axis it is not exact. */
  lemma {:induction false} StartAngle(fy: int, fx: int)
    requires fx > 0 && fy > 0
    ensures var v := Start(fy, fx); var z := Vectored(v, 32).z;
      if v.x == 0 then fy > fx && v == AXIS
      else 0 <= z <= QUARTER && (fy <= fx ==> z <= EIGHTH) && (fy >= fx ==> z >= EIGHTH)
  {
    hide Vectored, RoundDiv, Start;
    var l := Largest(fy, fx);
    Ratios(fy, fx);
    FirstAngle(RoundDiv(fx * ONE, l), RoundDiv(fy * ONE, l));
    if Start(fy, fx).x == 0 {
      StartOnAxis(fy, fx);
    }
  }

  lemma {:induction false} FirstAtan2(fy: int, fx: int)
    requires 0 < fx <= INT64_MAX && 0 < fy <= INT64_MAX
    ensures InFirst(fy, fx, Atan2(fy, fx).value)
  {
    hide Vectored, Angle, Start, Atan2;
    Atan2Is(fy, fx);
    StartAngle(fy, fx);
    AxisAngles();
    var z := Vectored(Start(fy, fx), 32).z;
    if Start(fy, fx).x != 0 {
      AngleBetween(z, 0, ONE / 4);
      if fy <= fx {
        AngleBetween(z, 0, ONE / 8);
      }
      if fy >= fx {
        AngleBetween(z, ONE / 8, ONE / 4);
      }
    }
  }

  // ---------------------------------------------------------------- every vector

  /** The angle below the axis lies between the opposites of its bounds. */
  lemma AngleBelow(z: int, lo: nat, hi: nat)
    requires lo * ONE <= z <= hi * ONE && hi < ONE / 2
    ensures var a := Angle(-z);
      if z == 0 then a == 0 else (ONE - hi <= a <= ONE - lo && a < ONE) || (lo == 0 && a == 0)
  {
    hide RoundDiv;
    if z == 0 {
      RoundDivExact(0, ONE);
    } else {
      RoundDivMonotone((ONE - hi) * ONE, TURN - z, ONE);
      RoundDivMonotone(TURN - z, (ONE - lo) * ONE, ONE);
      RoundDivExact(ONE - hi, ONE);
      RoundDivExact(ONE - lo, ONE);
    }
  }

  /** A vector below the x axis: the start is the mirror image of the one above. */
  lemma BelowStart(fy: int, fx: int)
    requires fx > 0 && fy > 0
    ensures Start(-fy, fx) == Mirrored(Start(fy, fx)) && Start(fy, fx).z == 0
  {
    hide RoundDiv;
    Ratios(fy, fx);
    RoundDivFlips(fy * ONE, Largest(fy, fx));
    assert -fy * ONE == -(fy * ONE);
  }

  ghost predicate InFourth(fy: int, fx: int, a: int)
  {
    && (3 * (ONE / 4) <= a < ONE || a == 0)
    && (fy <= fx ==> 7 * (ONE / 8) <= a < ONE || a == 0) && (fy >= fx ==> 3 * (ONE / 4) <= a <= 7 * (ONE / 8))
  }

  lemma FourthBounds(z: int, fy: int, fx: int)
    requires 0 <= z <= QUARTER && (fy <= fx ==> z <= EIGHTH) && (fy >= fx ==> z >= EIGHTH)
    ensures InFourth(fy, fx, Angle(-z))
  {
    hide Angle;
    AngleBelow(z, 0, ONE / 4);
    if fy <= fx {
      AngleBelow(z, 0, ONE / 8);
    }
    if fy >= fx {
      AngleBelow(z, ONE / 8, ONE / 4);
    }
  }

  lemma {:induction false} BelowIs(fy: int, fx: int)
    requires 0 < fx <= INT64_MAX && 0 < fy <= INT64_MAX
    ensures Atan2(-fy, fx).value == Angle(-Vectored(Start(fy, fx), 32).z)
    ensures -Vectored(AXIS, 32).z == Vectored(Mirrored(AXIS), 32).z
  {
    hide Vectored, Angle, Start, Atan2;
    Atan2Is(-fy, fx);
    BelowStart(fy, fx);
    VectoringMirrors(Start(fy, fx), 32);
    VectoringMirrors(AXIS, 32);
  }

  lemma {:induction false} FourthAtan2(fy: int, fx: int)
    requires 0 < fx <= INT64_MAX && 0 < fy <= INT64_MAX
    ensures InFourth(fy, fx, Atan2(-fy, fx).value)
  {
    hide Vectored, Angle, Start, Atan2, InFourth, RoundDiv;
    BelowIs(fy, fx);
    StartAngle(fy, fx);
    if Start(fy, fx).x == 0 {
      AxisAngles();
      QuarterFourth(fy, fx);
    } else {
      FourthBounds(Vectored(Start(fy, fx), 32).z, fy, fx);
    }
  }

  lemma QuarterFourth(fy: int, fx: int)
    requires fy > fx
    ensures InFourth(fy, fx, 3 * (ONE / 4))
  {
  }

  /** The quadrant of the angle by the signs of the components. */
  ghost predicate InQuadrant(fy: int, fx: int, a: int)
  {
    && (fx >= 0 && fy >= 0 ==> 0 <= a <= ONE / 4)
    && (fx <= 0 && fy >= 0 ==> ONE / 4 <= a <= ONE / 2)
    && (fx <= 0 && fy <= 0 ==> ONE / 2 <= a <= 3 * (ONE / 4))
    && (fx >= 0 && fy <= 0 ==> 3 * (ONE / 4) <= a < ONE || a == 0)
  }

  /** The half of it by their sizes: beside the x axis or beside the y axis. */
  ghost predicate InOctant(fy: int, fx: int, a: int)
  {
    && (Abs(fy) <= Abs(fx) ==>
          if fx > 0 then 0 <= a <= ONE / 8 || 7 * (ONE / 8) <= a < ONE else 3 * (ONE / 8) <= a <= 5 * (ONE / 8))
    && (Abs(fy) >= Abs(fx) ==>
          if fy > 0 then ONE / 8 <= a <= 3 * (ONE / 8) else 5 * (ONE / 8) <= a <= 7 * (ONE / 8))
  }

  lemma {:induction false} RightHalf(fy: int, fx: int)
    requires 0 < fx <= INT64_MAX && fy != 0 && INT64_MIN < fy <= INT64_MAX
    ensures var a := Atan2(fy, fx).value; InQuadrant(fy, fx, a) && InOctant(fy, fx, a)
  {
    hide Atan2;
    if fy > 0 {
      FirstAtan2(fy, fx);
    } else {
      FourthAtan2(-fy, fx);
    }
  }

  /** Half a turn on, both components change their signs. */
  lemma HalfOn(fy: int, fx: int, a: int)
    requires fx > 0 && fy != 0 && InQuadrant(fy, fx, a) && InOctant(fy, fx, a)
    ensures InQuadrant(-fy, -fx, Wrap(a + ONE / 2)) && InOctant(-fy, -fx, Wrap(a + ONE / 2))
  {
  }

  /** Every angle lies in the quadrant of the signs of its components and in the octant
      of their sizes. */
  lemma {:induction false} AngleOctants(fy: int, fx: int)
    requires InRange(fy) && InRange(fx) && Atan2(fy, fx).status == OK
    ensures var a := Atan2(fy, fx).value; InQuadrant(fy, fx, a) && InOctant(fy, fx, a)
  {
    hide Vectored, RoundDiv, Angle, Start;
    if fx != 0 && fy != 0 {
      hide InQuadrant, InOctant;
      if fx > 0 {
        RightHalf(fy, fx);
      } else {
        RightHalf(-fy, -fx);
        OppositeVector(-fy, -fx);
        HalfOn(-fy, -fx, Atan2(-fy, -fx).value);
      }
    }
  }
}
