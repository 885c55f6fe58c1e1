/** The 32-step CORDIC of libs/fieldctrl/src/cordic.c: rotation for sine and cosine,
    vectoring for the angle of a vector. */
module Cordic {
  import opened Fixed

  const TURN := 0x4000_0000_0000_0000
  const QUARTER := 0x1000_0000_0000_0000
  const START := 700114967507363239
  const SCALE := 0x2000_0000

  /** The angles with the tangents 1, 1/2, 1/4, ..., with 2^62 counts to the turn. */
  const ATAN_TURNS: seq<nat> := [
    576460752303423488, 340304653033718298, 179807632645220259, 91273161881380487, 45813697873323707, 22929182573009054,
    11467389120678282, 5734044481687724, 2867065987018958, 1433538461969102, 716769914547871, 358385042719534,
    179192532040472, 89596267355325, 44798133844548, 22399066943135, 11199533474175, 5599766737413,
    2799883368747, 1399941684379, 699970842190, 349985421095, 174992710548, 87496355274,
    43748177637, 21874088818, 10937044409, 5468522205, 2734261102, 1367130551,
    683565276, 341782638
  ]

  function Pow2(k: nat): (p: nat)
    ensures p > 0
  {
    if k == 0 then 1 else 2 * Pow2(k - 1)
  }

  function Shifted(magnitude: nat, bits: nat): int
  {
    magnitude / Pow2(bits)
  }

  /** `fc_coord_shift`: division by a power of two, toward zero. */
  function CoordShift(value: int, bits: nat): int
  {
    if value < 0 then 0 - Shifted(-value, bits) else Shifted(value, bits)
  }

  /** `fcq_wrap`. */
  function Wrap(x: int): (w: int)
    ensures 0 <= w < ONE
  {
    x % ONE
  }

  datatype Vector = Vector(x: int, y: int, z: int)

  function Turned(v: Vector, i: nat, forward: bool): Vector
    requires i < 32
  {
    var dx, dy := CoordShift(v.x, i), CoordShift(v.y, i);
    if forward then Vector(v.x - dy, v.y + dx, v.z - ATAN_TURNS[i])
    else Vector(v.x + dy, v.y - dx, v.z + ATAN_TURNS[i])
  }

  /** One rotation toward angle zero. */
  function RotationStep(v: Vector, i: nat): Vector
    requires i < 32
  {
    Turned(v, i, v.z >= 0)
  }

  /** One rotation toward the x axis; a vector on the axis stays. */
  function VectoringStep(v: Vector, i: nat): Vector
    requires i < 32
  {
    if v.y == 0 then v else Turned(v, i, v.y < 0)
  }

  function Rotated(v: Vector, k: nat): Vector
    requires k <= 32
  {
    if k == 0 then v else RotationStep(Rotated(v, k - 1), k - 1)
  }

  function Vectored(v: Vector, k: nat): Vector
    requires k <= 32
  {
    if k == 0 then v else VectoringStep(Vectored(v, k - 1), k - 1)
  }

  // ---------------------------------------------------------------- growth

  /** Bounds of x*x + y*y are counted in this unit; it also covers what truncation
      adds in one step. */
  const NORM_UNIT := 0x100_0000_0000_0000_0000

  function Norm(v: Vector): int
  {
    v.x * v.x + v.y * v.y
  }

  lemma Distribute(a: int, b: int, c: int)
    ensures (a + b) * c == a * c + b * c
    ensures (a - b) * c == a * c - b * c
  {
  }

  lemma Reorder(a: int, b: int, c: int)
    ensures a * b * c == c * b * a
  {
  }

  lemma ShiftedBounds(magnitude: nat, bits: nat) returns (rest: nat)
    ensures var p, q := Pow2(bits), Shifted(magnitude, bits);
      magnitude == q * p + rest && rest < p && 0 <= q && q * p <= magnitude
  {
    hide Pow2;
    rest := magnitude % Pow2(bits);
  }

  /** Truncated quotients. */
  lemma ShiftBounds(value: int, bits: nat) returns (rest: int)
    ensures var p, d := Pow2(bits), CoordShift(value, bits);
      value == d * p + rest && Abs(rest) < p && Abs(d) * p <= Abs(value)
  {
    hide Pow2, Shifted;
    var r: int;
    r := ShiftedBounds(Abs(value), bits);
    rest := if value < 0 then 0 - r else r;
    Distribute(0, Shifted(Abs(value), bits), Pow2(bits));
  }

  lemma ProductBound(a: int, b: int, p: nat, c: nat)
    requires Abs(a) <= p && Abs(b) * p <= c
    ensures Abs(a * b) <= c
  {
    AbsProduct(a, b);
    MulMonotone(Abs(a), p, Abs(b));
  }

  /** The part of the growth that only truncation makes. */
  lemma CrossTerm(x: int, y: int, dx: int, dy: int, p: nat, rx: int, ry: int)
    requires x == dx * p + rx && y == dy * p + ry && Abs(rx) < p && Abs(ry) < p
    requires Abs(dx) * p <= Abs(x) && Abs(dy) * p <= Abs(y)
    ensures Abs(y * dx - x * dy) <= Abs(x) + Abs(y)
  {
    ProductBound(ry, dx, p, Abs(x));
    ProductBound(rx, dy, p, Abs(y));
    Distribute(dy * p, ry, dx);
    Distribute(dx * p, rx, dy);
    Reorder(dy, p, dx);
  }

  lemma SquareBound(d: int, p: nat, x: int)
    requires Abs(d) * p <= Abs(x)
    ensures d * d * (p * p) <= x * x
  {
    var a, b := Abs(d) * p, Abs(x);
    MulMonotone(a, b, a);
    MulMonotone(a, b, b);
    AbsProduct(d, d);
    AbsProduct(x, x);
    SquareProduct(Abs(d), p);
  }

  lemma SquareProduct(a: int, b: int)
    ensures (a * b) * (a * b) == a * a * (b * b)
  {
    Reorder(a, b, a * b);
    Reorder(a * b, b, a);
    assert (a * b) * b == a * (b * b);
    assert (a * b) * (a * b) == ((a * b) * b) * a;
    assert a * (b * b) * a == a * a * (b * b);
  }

  /** One step multiplies the norm by at most 1 + 4^-i, up to truncation. */
  lemma {:induction false} NormStep(v: Vector, i: nat, forward: bool)
    requires i < 32 && Abs(v.x) < TURN && Abs(v.y) < TURN
    ensures var p := Pow2(i) * Pow2(i);
      p * Norm(Turned(v, i, forward)) <= p * Norm(v) + Norm(v) + p * NORM_UNIT
  {
    hide CoordShift, Turned, Pow2;
    var p := Pow2(i);
    var dx, dy := CoordShift(v.x, i), CoordShift(v.y, i);
    var rx := ShiftBounds(v.x, i);
    var ry := ShiftBounds(v.y, i);
    CrossTerm(v.x, v.y, dx, dy, p, rx, ry);
    SquareBound(dx, p, v.x);
    SquareBound(dy, p, v.y);
    TurnedNorm(v, i, forward);
    var cross, squares, after := 2 * Abs(v.y * dx - v.x * dy), dx * dx + dy * dy, Norm(Turned(v, i, forward));
    Distribute(dx * dx, dy * dy, p * p);
    hide Norm;
    Scaled(p * p, after, Norm(v), squares, cross);
  }

  lemma TurnedNorm(v: Vector, i: nat, forward: bool)
    requires i < 32
    ensures var dx, dy := CoordShift(v.x, i), CoordShift(v.y, i);
      Norm(Turned(v, i, forward)) <= Norm(v) + (dx * dx + dy * dy) + 2 * Abs(v.y * dx - v.x * dy)
  {
    hide CoordShift;
    var dx, dy := CoordShift(v.x, i), CoordShift(v.y, i);
    Expand(v.x, v.y, dx, dy);
  }

  lemma Expand(x: int, y: int, dx: int, dy: int)
    ensures (x - dy) * (x - dy) + (y + dx) * (y + dx) == x * x + y * y + (dx * dx + dy * dy) + 2 * (y * dx - x * dy)
    ensures (x + dy) * (x + dy) + (y - dx) * (y - dx) == x * x + y * y + (dx * dx + dy * dy) - 2 * (y * dx - x * dy)
  {
    assert (x - dy) * (x - dy) == x * x - 2 * (x * dy) + dy * dy;
    assert (x + dy) * (x + dy) == x * x + 2 * (x * dy) + dy * dy;
    assert (y + dx) * (y + dx) == y * y + 2 * (y * dx) + dx * dx;
    assert (y - dx) * (y - dx) == y * y - 2 * (y * dx) + dx * dx;
  }

  lemma Scaled(p: nat, after: int, before: int, squares: int, cross: int)
    requires after <= before + squares + cross && squares * p <= before && cross <= NORM_UNIT
    ensures p * after <= p * before + before + p * NORM_UNIT
  {
    assert (before + squares + cross - after) * p >= 0;
    assert (NORM_UNIT - cross) * p >= 0;
  }

  /** The norm below which 32 steps stay: `limit` is a bound of the whole product of the
      growth factors, the share of it not yet used up after `k` steps is 4/3 of 4^-k. */
  ghost predicate Limited(norm: int, k: nat, limit: nat)
  {
    var p := Pow2(k) * Pow2(k);
    3 * (p * norm) <= limit * (3 * p - 4) + 6 * (p * k * NORM_UNIT)
  }

  /** Each step keeps the bound. */
  lemma {:induction false} LimitedStep(before: nat, after: int, k: nat, limit: nat)
    requires k >= 2 && Limited(before, k, limit)
    requires var p := Pow2(k) * Pow2(k); p * after <= p * before + before + p * NORM_UNIT
    ensures Limited(after, k + 1, limit)
  {
    hide Pow2;
    var p := Pow2(k) * Pow2(k);
    PowStep(k);
    LimitedNorm(before, k, limit);
    LimitArithmetic(before, after, p, k, limit);
  }

  lemma PowStep(k: nat)
    requires k >= 2
    ensures Pow2(k + 1) * Pow2(k + 1) == 4 * (Pow2(k) * Pow2(k)) && 2 * k <= Pow2(k) * Pow2(k)
  {
    PowGrows(k);
    var q := Pow2(k);
    assert Pow2(k + 1) == 2 * q;
    assert (2 * q) * (2 * q) == 4 * (q * q);
    MulMonotone(2, q, q);
  }

  lemma {:induction false} PowGrows(k: nat)
    ensures Pow2(k) > k && (k >= 1 ==> Pow2(k) >= 2)
  {
    if k > 0 {
      PowGrows(k - 1);
    }
  }

  lemma LimitedNorm(norm: nat, k: nat, limit: nat)
    requires Limited(norm, k, limit)
    ensures norm <= limit + 2 * k * NORM_UNIT
  {
    hide Pow2;
    var p := Pow2(k) * Pow2(k);
    assert limit * (3 * p - 4) == 3 * (limit * p) - 4 * limit;
    assert (limit + 2 * k * NORM_UNIT + 1) * p == limit * p + 2 * (p * k * NORM_UNIT) + p;
    if norm > limit + 2 * k * NORM_UNIT {
      MulMonotone(limit + 2 * k * NORM_UNIT + 1, norm, p);
    }
  }

  lemma LimitArithmetic(before: nat, after: int, p: nat, k: nat, limit: nat)
    requires 3 * (p * before) <= limit * (3 * p - 4) + 6 * (p * k * NORM_UNIT)
    requires p * after <= p * before + before + p * NORM_UNIT
    requires before <= limit + 2 * k * NORM_UNIT && 2 * k <= p
    ensures 3 * (4 * p * after) <= limit * (3 * (4 * p) - 4) + 6 * (4 * p * (k + 1) * NORM_UNIT)
  {
    MulMonotone(2 * k, p, NORM_UNIT);
    assert 4 * p * after == 4 * (p * after);
    assert limit * (3 * p - 4) == 3 * (limit * p) - 4 * limit;
    assert limit * (3 * (4 * p) - 4) == 12 * (limit * p) - 4 * limit;
    assert p * (k + 1) * NORM_UNIT == p * k * NORM_UNIT + p * NORM_UNIT;
    assert 4 * p * (k + 1) * NORM_UNIT == 4 * (p * (k + 1) * NORM_UNIT);
  }

  // ---------------------------------------------------------------- rotation

  /** The norms of the first steps, in units, before the general bound takes over. */
  const ROTATION_START: seq<nat> := [
    103795622280883, 207591244561767, 259489055702210, 275707121683600, 280015045459908,
    281108854231237, 281383374596699, 281452071709639, 281469250180814, 281473545060732
  ]

  const ROTATION_LIMIT := 0x1_0000_0000_8000 * NORM_UNIT

  ghost predicate RotationNorm(norm: int, k: nat)
  {
    if k < 10 then norm <= ROTATION_START[k] * NORM_UNIT else Limited(norm, k, ROTATION_LIMIT)
  }

  lemma Powers()
    ensures Pow2(0) == 1 && Pow2(1) == 2 && Pow2(2) == 4 && Pow2(3) == 8 && Pow2(4) == 16
    ensures Pow2(5) == 32 && Pow2(6) == 64 && Pow2(7) == 128 && Pow2(8) == 256 && Pow2(9) == 512
  {
  }

  lemma StartStep(before: nat, after: int, k: nat)
    requires k < 9 && before <= ROTATION_START[k] * NORM_UNIT
    requires var p := Pow2(k) * Pow2(k); p * after <= p * before + before + p * NORM_UNIT
    ensures after <= ROTATION_START[k + 1] * NORM_UNIT
  {
    hide Pow2;
    Powers();
    if k == 0 {
    } else if k == 1 {
    } else if k == 2 {
    } else if k == 3 {
    } else if k == 4 {
    } else if k == 5 {
    } else if k == 6 {
    } else if k == 7 {
    } else {
    }
  }

  lemma StartLimited(norm: int)
    requires norm <= ROTATION_START[9] * NORM_UNIT
    ensures Limited(norm, 9, ROTATION_LIMIT)
  {
    Powers();
  }

  lemma {:induction false} RotationNormStep(before: nat, after: int, k: nat)
    requires k < 32 && RotationNorm(before, k)
    requires var p := Pow2(k) * Pow2(k); p * after <= p * before + before + p * NORM_UNIT
    ensures RotationNorm(after, k + 1)
  {
    hide Limited, Pow2;
    if k < 9 {
      StartStep(before, after, k);
    } else {
      if k == 9 {
        StartLimited(before);
      }
      LimitedStep(before, after, k, ROTATION_LIMIT);
    }
  }

  /** The norm never leaves the unit circle by more than one part in 2^31. */
  lemma RotationNormBound(norm: nat, k: nat)
    requires k <= 32 && RotationNorm(norm, k)
    ensures norm < (QUARTER + SCALE / 2) * (QUARTER + SCALE / 2)
  {
    hide Pow2, Limited;
    if k >= 10 {
      LimitedNorm(norm, k, ROTATION_LIMIT);
    }
  }

  lemma RootBound(x: int, y: int, bound: nat)
    requires x * x + y * y < bound * bound
    ensures Abs(x) < bound && Abs(y) < bound
  {
    AbsProduct(x, x);
    AbsProduct(y, y);
    if Abs(x) >= bound {
      MulMonotone(bound, Abs(x), bound);
      MulMonotone(bound, Abs(x), Abs(x));
    }
    if Abs(y) >= bound {
      MulMonotone(bound, Abs(y), bound);
      MulMonotone(bound, Abs(y), Abs(y));
    }
  }

  /** The table is rounded: a few entries exceed twice the next one by one. */
  function Excess(k: nat): nat
  {
    if k == 25 || k == 26 || k == 28 || k == 29 then 1 else 0
  }

  /** Bound of the angle left before step `k`. */
  function AngleBound(k: nat): nat
    requires k <= 32
  {
    if k == 0 then QUARTER else ATAN_TURNS[k - 1] + Excess(k - 1)
  }

  predicate Halves(k: nat)
    requires k < 32
  {
    AngleBound(k) <= ATAN_TURNS[k] + AngleBound(k + 1) && ATAN_TURNS[k] <= QUARTER
  }

  lemma AngleTable(k: nat)
    requires k < 32
    ensures Halves(k)
  {
    hide Halves;
    if k < 8 {
      AngleTable0(k);
    } else if k < 16 {
      AngleTable8(k);
    } else if k < 24 {
      AngleTable16(k);
    } else {
      AngleTable24(k);
    }
  }

  lemma AngleTable0(k: nat)
    requires 0 <= k < 8
    ensures Halves(k)
  {
    assert Halves(0) && Halves(1) && Halves(2) && Halves(3)
      && Halves(4) && Halves(5) && Halves(6) && Halves(7);
  }

  lemma AngleTable8(k: nat)
    requires 8 <= k < 16
    ensures Halves(k)
  {
    assert Halves(8) && Halves(9) && Halves(10) && Halves(11)
      && Halves(12) && Halves(13) && Halves(14) && Halves(15);
  }

  lemma AngleTable16(k: nat)
    requires 16 <= k < 24
    ensures Halves(k)
  {
    assert Halves(16) && Halves(17) && Halves(18) && Halves(19)
      && Halves(20) && Halves(21) && Halves(22) && Halves(23);
  }

  lemma AngleTable24(k: nat)
    requires 24 <= k < 32
    ensures Halves(k)
  {
    assert Halves(24) && Halves(25) && Halves(26) && Halves(27)
      && Halves(28) && Halves(29) && Halves(30) && Halves(31);
  }

  /** What every rotation keeps, for every angle of up to a quarter turn. */
  lemma {:induction false} RotationBounds(z: int, k: nat)
    requires Abs(z) <= QUARTER && k <= 32
    ensures var v := Rotated(Vector(START, 0, z), k);
      && RotationNorm(Norm(v), k) && Abs(v.z) <= AngleBound(k)
      && Abs(v.x) < QUARTER + SCALE / 2 && Abs(v.y) < QUARTER + SCALE / 2
  {
    hide RotationNorm, AngleBound, Turned, Norm;
    var v := Rotated(Vector(START, 0, z), k);
    if k == 0 {
      RotationFirst(z);
    } else {
      RotationBounds(z, k - 1);
      var u := Rotated(Vector(START, 0, z), k - 1);
      NormStep(u, k - 1, u.z >= 0);
      NormIsNatural(u);
      RotationNormStep(Norm(u), Norm(v), k - 1);
      AngleStep(u, k - 1);
    }
    NormIsNatural(v);
    RotationNormBound(Norm(v), k);
    NormRoot(v, QUARTER + SCALE / 2);
  }

  lemma RotationFirst(z: int)
    requires Abs(z) <= QUARTER
    ensures RotationNorm(Norm(Vector(START, 0, z)), 0) && Abs(z) <= AngleBound(0)
  {
  }

  lemma NormIsNatural(v: Vector)
    ensures Norm(v) >= 0
  {
    AbsProduct(v.x, v.x);
    AbsProduct(v.y, v.y);
  }

  lemma NormRoot(v: Vector, bound: nat)
    requires Norm(v) < bound * bound
    ensures Abs(v.x) < bound && Abs(v.y) < bound
  {
    RootBound(v.x, v.y, bound);
  }

  lemma AngleStep(u: Vector, k: nat)
    requires k < 32 && Abs(u.z) <= AngleBound(k)
    ensures Abs(RotationStep(u, k).z) <= AngleBound(k + 1)
  {
    AngleTable(k);
    AngleLater(k);
  }

  /** No angle is larger than what is left for it. */
  lemma AngleLater(k: nat)
    requires k < 32
    ensures ATAN_TURNS[k] <= AngleBound(k + 1)
  {
  }

  /** After the last step no more than the last entry of the table is left. */
  lemma LeftoverAngle(z: int)
    requires Abs(z) <= QUARTER
    ensures Abs(Rotated(Vector(START, 0, z), 32).z) <= 341782638
  {
    hide Rotated;
    RotationBounds(z, 32);
  }

  // ---------------------------------------------------------------- sine and cosine

  datatype Trig = Trig(sn: int, cs: int)

  datatype Quadrant = Quadrant(sign: int, z: int)

  /** The angle within a quarter turn of the x axis, and which side of it. */
  function Reduce(z: int): Quadrant
  {
    var near := if z >= 2 * QUARTER then z - TURN else z;
    if near > QUARTER then Quadrant(-1, near - 2 * QUARTER)
    else if near < -QUARTER then Quadrant(-1, near + 2 * QUARTER)
    else Quadrant(1, near)
  }

  predicate OnAxis(z: int)
  {
    z == 0 || z == QUARTER || z == 2 * QUARTER || z == 3 * QUARTER
  }

  function SinCos(a: int): Trig
  {
    var z := Wrap(a) * ONE;
    if OnAxis(z) then
      Trig(if z == QUARTER then ONE else if z == 3 * QUARTER then -ONE else 0,
           if z == 0 then ONE else if z == 2 * QUARTER then -ONE else 0)
    else
      var q := Reduce(z);
      var v := Rotated(Vector(START, 0, q.z), 32);
      Trig(RoundDiv(q.sign * v.y, SCALE), RoundDiv(q.sign * v.x, SCALE))
  }

  lemma ExportBound(n: int)
    requires Abs(n) < QUARTER + SCALE / 2
    ensures Abs(RoundDiv(n, SCALE)) <= ONE
  {
    hide RoundMagnitude;
    RoundMagnitudeNearest(Abs(n), SCALE);
  }

  /** No sine or cosine exceeds one. */
  lemma SinCosBound(a: int)
    ensures Abs(SinCos(a).sn) <= ONE && Abs(SinCos(a).cs) <= ONE
  {
    hide Rotated, RoundDiv;
    var z := Wrap(a) * ONE;
    var q := Reduce(z);
    if !OnAxis(z) {
      RotationBounds(q.z, 32);
      var v := Rotated(Vector(START, 0, q.z), 32);
      ExportBound(q.sign * v.y);
      ExportBound(q.sign * v.x);
    }
  }

  /** `fcq_sincos`: it computes `SinCos`, every coordinate and angle on the way fits
      64 bits with room to spare, and the conversion at the end cannot fail. */
  method FcqSinCos(a: int) returns (result: Trig, status: Status)
    requires InRange(a)
    ensures status == OK && result == SinCos(a) && Abs(result.sn) <= ONE && Abs(result.cs) <= ONE
  {
    hide Rotated, RoundDiv, CoordShift, AngleBound, Norm, RotationNorm;
    SinCosBound(a);
    status := OK;
    var z := Wrap(a) * ONE;
    if OnAxis(z) {
      result := Trig(if z == QUARTER then ONE else if z == 3 * QUARTER then -ONE else 0,
                     if z == 0 then ONE else if z == 2 * QUARTER then -ONE else 0);
      return;
    }
    var x, y, sign := START, 0, 1;
    if z >= 2 * QUARTER {
      z := z - TURN;
    }
    if z > QUARTER {
      z, sign := z - 2 * QUARTER, -1;
    } else if z < -QUARTER {
      z, sign := z + 2 * QUARTER, -1;
    }
    ghost var start := Vector(START, 0, z);
    NoRotation(start);
    for i := 0 to 32
      invariant Vector(x, y, z) == Rotated(start, i)
    {
      OneRotation(start, i);
      RotationBounds(start.z, i + 1);
      var dx, dy := CoordShift(x, i), CoordShift(y, i);
      if z >= 0 {
        x, y, z := x - dy, y + dx, z - ATAN_TURNS[i];
      } else {
        x, y, z := x + dy, y - dx, z + ATAN_TURNS[i];
      }
      assert Abs(x) < TURN && Abs(y) < TURN;
    }
    var s := MulDiv(sign * y, 1, SCALE);
    var c := MulDiv(sign * x, 1, SCALE);
    result := Trig(s.value, c.value);
  }

  lemma {:induction false} NoRotation(v: Vector)
    ensures Rotated(v, 0) == v
  {
  }

  lemma OneRotation(v: Vector, i: nat)
    requires i < 32
    ensures Rotated(v, i + 1) == RotationStep(Rotated(v, i), i)
  {
  }

  /** Half a turn more negates sine and cosine exactly. */
  lemma HalfTurn(a: int)
    ensures SinCos(a + ONE / 2) == Trig(-SinCos(a).sn, -SinCos(a).cs)
  {
    hide Rotated, RoundDiv;
    var w := Wrap(a);
    var z := w * ONE;
    WrapHalf(a);
    var q := Reduce(z);
    var v := Rotated(Vector(START, 0, q.z), 32);
    RoundDivFlips(q.sign * v.y, SCALE);
    RoundDivFlips(q.sign * v.x, SCALE);
    assert q.sign == 1 || q.sign == -1;
  }

  lemma WrapHalf(a: int)
    ensures Wrap(a + ONE / 2) == if Wrap(a) < ONE / 2 then Wrap(a) + ONE / 2 else Wrap(a) - ONE / 2
  {
  }

  // ---------------------------------------------------------------- vectoring

  const VECTORING_LIMIT := 1_539_000_000_000_000 * NORM_UNIT

  /** 2.34 * 2^60. */
  const VECTOR_BOUND := 2_697_836_320_780_021_923

  ghost predicate VectoringNorm(norm: int, k: nat)
  {
    if k == 0 then norm <= 0x2_0000_0000_0000 * NORM_UNIT
    else if k == 1 then norm <= 0x4_0000_0000_0001 * NORM_UNIT
    else Limited(norm, k, VECTORING_LIMIT)
  }

  lemma {:induction false} VectoringNormStep(before: nat, after: int, k: nat)
    requires k < 32 && VectoringNorm(before, k)
    requires var p := Pow2(k) * Pow2(k); p * after <= p * before + before + p * NORM_UNIT
    ensures VectoringNorm(after, k + 1)
  {
    hide Pow2;
    Powers();
    if k >= 2 {
      hide Limited;
      LimitedStep(before, after, k, VECTORING_LIMIT);
    }
  }

  lemma VectoringStays(norm: nat, k: nat)
    requires k < 32 && VectoringNorm(norm, k)
    ensures VectoringNorm(norm, k + 1)
  {
    var p := Pow2(k) * Pow2(k);
    VectoringNormStep(norm, norm, k);
  }

  lemma VectoringNormBound(norm: nat, k: nat)
    requires k <= 32 && VectoringNorm(norm, k)
    ensures norm < VECTOR_BOUND * VECTOR_BOUND
  {
    hide Pow2, Limited;
    if k >= 2 {
      LimitedNorm(norm, k, VECTORING_LIMIT);
    }
  }

  /** Every coordinate stays below 2.34 * 2^60, from anywhere in the unit square. */
  lemma {:induction false} VectoringBounds(v: Vector, k: nat)
    requires 0 <= v.x <= QUARTER && Abs(v.y) <= QUARTER && k <= 32
    ensures var u := Vectored(v, k);
      VectoringNorm(Norm(u), k) && Abs(u.x) < VECTOR_BOUND && Abs(u.y) < VECTOR_BOUND
  {
    hide VectoringNorm, Turned, Norm;
    var u := Vectored(v, k);
    if k == 0 {
      VectoringFirst(v);
    } else {
      VectoringBounds(v, k - 1);
      var w := Vectored(v, k - 1);
      NormIsNatural(w);
      if w.y == 0 {
        VectoringStays(Norm(w), k - 1);
      } else {
        NormStep(w, k - 1, w.y < 0);
        VectoringNormStep(Norm(w), Norm(u), k - 1);
      }
    }
    NormIsNatural(u);
    VectoringNormBound(Norm(u), k);
    NormRoot(u, VECTOR_BOUND);
  }

  lemma VectoringFirst(v: Vector)
    requires 0 <= v.x <= QUARTER && Abs(v.y) <= QUARTER
    ensures VectoringNorm(Norm(v), 0)
  {
    AbsProduct(v.x, v.x);
    AbsProduct(v.y, v.y);
    MulMonotone(Abs(v.x), QUARTER, Abs(v.x));
    MulMonotone(Abs(v.x), QUARTER, QUARTER);
    MulMonotone(Abs(v.y), QUARTER, Abs(v.y));
    MulMonotone(Abs(v.y), QUARTER, QUARTER);
  }

  lemma ShiftSign(value: int, bits: nat)
    ensures value >= 0 ==> CoordShift(value, bits) >= 0
    ensures value <= 0 ==> CoordShift(value, bits) <= 0
  {
    hide Shifted;
    var rest := ShiftedBounds(Abs(value), bits);
    if value == 0 {
      assert Shifted(0, bits) * Pow2(bits) <= 0;
      MulMonotone(0, Shifted(0, bits), Pow2(bits));
      if Shifted(0, bits) >= 1 {
        MulMonotone(1, Shifted(0, bits), Pow2(bits));
      }
    }
  }

  /** x never decreases. */
  lemma VectoringGrows(v: Vector, k: nat)
    requires k < 32 && Vectored(v, k).x >= 0
    ensures Vectored(v, k + 1).x >= Vectored(v, k).x
  {
    hide CoordShift;
    ShiftSign(Vectored(v, k).y, k);
  }

  lemma {:induction false} VectoringNatural(v: Vector, k: nat)
    requires k <= 32 && v.x >= 0
    ensures Vectored(v, k).x >= v.x
  {
    if k > 0 {
      VectoringNatural(v, k - 1);
      VectoringGrows(v, k - 1);
    }
  }

  /** The vector comes down to the axis: after k steps y is at most x / 2^(k-1) and one
      unit of truncation for every step but the first. */
  lemma {:induction false} VectoringConverges(v: Vector, k: nat)
    requires 1 <= k <= 32 && v.x >= 0
    ensures var u := Vectored(v, k); Abs(u.y) * Pow2(k - 1) <= u.x + (k - 1) * Pow2(k - 1)
  {
    hide CoordShift, Pow2;
    var w, i := Vectored(v, k - 1), k - 1;
    VectoringNatural(v, i);
    VectoringGrows(v, i);
    var p := Pow2(i);
    ShiftSign(w.x, i);
    var rest := ShiftBounds(w.x, i);
    var dx, u := CoordShift(w.x, i), Vectored(v, k);
    assert w.y != 0 ==> Abs(u.y) == Abs(Abs(w.y) - dx);
    if i == 0 {
      Powers();
      var ry := ShiftBounds(w.y, 0);
    } else {
      VectoringConverges(v, i);
      PowDoubles(i - 1);
      Lower(Abs(w.y), dx, Abs(u.y), w.x, u.x, Pow2(i - 1), p, i);
    }
  }

  lemma PowDoubles(k: nat)
    ensures Pow2(k + 1) == 2 * Pow2(k)
  {
  }

  lemma Lower(before: nat, dx: nat, after: nat, x: nat, grown: nat, half: nat, p: nat, i: nat)
    requires p == 2 * half && x <= grown && i > 0
    requires before * half <= x + (i - 1) * half && dx * p <= x < dx * p + p
    requires before == 0 || after == Abs(before - dx)
    requires before == 0 ==> after == 0
    ensures after * p <= grown + i * p
  {
    assert before * p == 2 * (before * half);
    assert (i - 1) * p == 2 * ((i - 1) * half) && i * p == (i - 1) * p + p;
    Distribute(before, dx, p);
    Distribute(dx, before, p);
    MulMonotone(0, i, p);
    MulMonotone(0, before, p);
  }

  /** The entry for step `k`, nothing behind the last one. */
  function Entry(k: nat): nat
  {
    if k < 32 then ATAN_TURNS[k] else 0
  }

  predicate Shrinks(k: nat)
  {
    5 * Entry(k + 1) <= 3 * Entry(k)
  }

  lemma ShrinkTable(k: nat)
    requires k < 32
    ensures Shrinks(k)
  {
    hide Shrinks;
    if k < 8 {
      ShrinkTable0(k);
    } else if k < 16 {
      ShrinkTable8(k);
    } else if k < 24 {
      ShrinkTable16(k);
    } else {
      ShrinkTable24(k);
    }
  }

  lemma ShrinkTable0(k: nat)
    requires 0 <= k < 8
    ensures Shrinks(k)
  {
    assert Shrinks(0) && Shrinks(1) && Shrinks(2) && Shrinks(3)
      && Shrinks(4) && Shrinks(5) && Shrinks(6) && Shrinks(7);
  }

  lemma ShrinkTable8(k: nat)
    requires 8 <= k < 16
    ensures Shrinks(k)
  {
    assert Shrinks(8) && Shrinks(9) && Shrinks(10) && Shrinks(11)
      && Shrinks(12) && Shrinks(13) && Shrinks(14) && Shrinks(15);
  }

  lemma ShrinkTable16(k: nat)
    requires 16 <= k < 24
    ensures Shrinks(k)
  {
    assert Shrinks(16) && Shrinks(17) && Shrinks(18) && Shrinks(19)
      && Shrinks(20) && Shrinks(21) && Shrinks(22) && Shrinks(23);
  }

  lemma ShrinkTable24(k: nat)
    requires 24 <= k < 32
    ensures Shrinks(k)
  {
    assert Shrinks(24) && Shrinks(25) && Shrinks(26) && Shrinks(27)
      && Shrinks(28) && Shrinks(29) && Shrinks(30) && Shrinks(31);
  }

  /** All angles together are less than 5/16 of a turn. */
  lemma {:induction false} VectoringAngle(v: Vector, k: nat)
    requires k <= 32
    ensures 2 * Abs(Vectored(v, k).z - v.z) <= 5 * (Entry(0) - Entry(k))
  {
    hide CoordShift, Entry;
    if k > 0 {
      VectoringAngle(v, k - 1);
      ShrinkTable(k - 1);
      EntryIs(k - 1);
    }
  }

  lemma EntryIs(k: nat)
    requires k < 32
    ensures Entry(k) == ATAN_TURNS[k]
  {
  }

  // ---------------------------------------------------------------- the angle

  /** The larger magnitude, by which both components are divided. */
  function Largest(fy: int, fx: int): nat
  {
    if Abs(fx) >= Abs(fy) then Abs(fx) else Abs(fy)
  }

  /** The components as parts of the larger one. */
  function Start(fy: int, fx: int): Vector
    requires fx != 0 || fy != 0
  {
    var x, y := RoundDiv(fx * ONE, Largest(fy, fx)) * SCALE, RoundDiv(fy * ONE, Largest(fy, fx)) * SCALE;
    if x < 0 then Vector(-x, -y, TURN / 2) else Vector(x, y, 0)
  }

  /** The angle left after vectoring, rounded to the working scalar. */
  function Angle(z: int): int
  {
    var positive := if z < 0 then z + TURN else z;
    Wrap(RoundDiv(if positive >= TURN then positive - TURN else positive, ONE))
  }

  function Atan2(fy: int, fx: int): Result
  {
    if fx == 0 && fy == 0 then Result(0, DOMAIN)
    else if fy == 0 then Result(if fx > 0 then 0 else ONE / 2, OK)
    else if fx == 0 then Result(if fy > 0 then ONE / 4 else 3 * (ONE / 4), OK)
    else if fx == INT64_MIN || fy == INT64_MIN then Result(0, RANGE)
    else Result(Angle(Vectored(Start(fy, fx), 32).z), OK)
  }

  lemma UnitRatio(n: int, largest: nat)
    requires largest > 0 && Abs(n) <= largest
    ensures Abs(RoundDiv(n * ONE, largest)) <= ONE
  {
    RoundDivExact(ONE, largest);
    RoundDivFlips(ONE * largest, largest);
    RoundDivMonotone(n * ONE, ONE * largest, largest);
    RoundDivMonotone(-(ONE * largest), n * ONE, largest);
  }

  lemma StartInUnit(fy: int, fx: int)
    requires fx != 0 || fy != 0
    ensures var v := Start(fy, fx);
      0 <= v.x <= QUARTER && Abs(v.y) <= QUARTER && (v.z == 0 || v.z == TURN / 2)
  {
    hide RoundDiv;
    UnitRatio(fx, Largest(fy, fx));
    UnitRatio(fy, Largest(fy, fx));
  }

  lemma FirstEntry()
    ensures Entry(0) == 0x800_0000_0000_0000
  {
  }

  lemma AngleRange(z: int)
    requires 0 <= z < TURN
    ensures 0 <= RoundDiv(z, ONE) <= ONE
  {
    hide RoundMagnitude;
    RoundMagnitudeNearest(z, ONE);
  }

  /** `fcq_atan2`: the coordinates and the angle stay inside of 64 bits, the angle comes
      out in [0, one turn), and it fails exactly for the zero vector and for a component
      whose magnitude cannot be taken. */
  method FcqAtan2(fy: int, fx: int) returns (r: Result)
    requires InRange(fy) && InRange(fx)
    ensures r == Atan2(fy, fx)
    ensures r.status == OK ==> 0 <= r.value < ONE
    ensures r.status == DOMAIN <==> fx == 0 && fy == 0
    ensures r.status == RANGE <==> fx != 0 && fy != 0 && (fx == INT64_MIN || fy == INT64_MIN)
  {
    hide Vectored, RoundDiv;
    if fx == 0 && fy == 0 {
      return Result(0, DOMAIN);
    }
    if fy == 0 {
      return Result(if fx > 0 then 0 else ONE / 2, OK);
    }
    if fx == 0 {
      return Result(if fy > 0 then ONE / 4 else 3 * (ONE / 4), OK);
    }
    var ax := AbsChecked(fx, OK);
    var ay := AbsChecked(fy, ax.status);
    var largest := if ax.value >= ay.value then ax.value else ay.value;
    var nx := Div(fx, largest, ay.status);
    var ny := Div(fy, largest, nx.status);
    if ay.status == OK {
      UnitRatio(fx, largest);
      UnitRatio(fy, largest);
    }
    if ny.status != OK {
      return Result(0, ny.status);
    }
    var x, y, z := nx.value * SCALE, ny.value * SCALE, 0;
    if x < 0 {
      x, y, z := -x, -y, TURN / 2;
    }
    ghost var start := Vector(x, y, z);
    StartInUnit(fy, fx);
    z := TurnToAxis(x, y, z);
    VectoringAngle(start, 32);
    FirstEntry();
    if z < 0 {
      z := z + TURN;
    }
    if z >= TURN {
      z := z - TURN;
    }
    AngleRange(z);
    var a := MulDiv(z, 1, ONE);
    r := Result(Wrap(a.value), OK);
  }

  /** The loop of `fcq_atan2`. */
  method TurnToAxis(x0: int, y0: int, z0: int) returns (z: int)
    requires 0 <= x0 <= QUARTER && Abs(y0) <= QUARTER && (z0 == 0 || z0 == TURN / 2)
    ensures z == Vectored(Vector(x0, y0, z0), 32).z
  {
    hide Vectored, CoordShift, VectoringNorm, Norm, Entry;
    ghost var start := Vector(x0, y0, z0);
    var x, y, i := x0, y0, 0;
    z := z0;
    NoVectoring(start);
    FirstEntry();
    while i < 32 && y != 0
      invariant 0 <= i <= 32 && Vector(x, y, z) == Vectored(start, i)
      invariant Abs(x) < VECTOR_BOUND && Abs(y) < VECTOR_BOUND
    {
      OneVectoring(start, i);
      VectoringBounds(start, i + 1);
      var dx, dy := CoordShift(x, i), CoordShift(y, i);
      if y > 0 {
        x, y, z := x + dy, y - dx, z + ATAN_TURNS[i];
      } else {
        x, y, z := x - dy, y + dx, z - ATAN_TURNS[i];
      }
      VectoringAngle(start, i + 1);
      assert InRange(x) && InRange(y) && InRange(z);
      i := i + 1;
    }
    OnAxisStays(start, i, 32);
  }

  lemma {:induction false} NoVectoring(v: Vector)
    ensures Vectored(v, 0) == v
  {
  }

  lemma OneVectoring(v: Vector, i: nat)
    requires i < 32
    ensures Vectored(v, i + 1) == VectoringStep(Vectored(v, i), i)
  {
  }

  /** Leaving the loop early changes nothing. */
  lemma {:induction false} OnAxisStays(v: Vector, i: nat, k: nat)
    requires i <= k <= 32 && (i == k || Vectored(v, i).y == 0)
    ensures Vectored(v, k) == Vectored(v, i)
    decreases k
  {
    if i < k {
      OnAxisStays(v, i, k - 1);
    }
  }

  // ------------------------------------------------------------ along the y axis

  /** The vector along the y axis, as it starts where x has rounded to zero. */
  const AXIS := Vector(0, QUARTER, 0)

  /** One step with its two quotients. */
  lemma {:induction false} StepIs(v: Vector, k: nat, p: nat, dx: nat, dy: nat, angle: nat)
    requires k < 32 && p == Pow2(k) && angle == ATAN_TURNS[k] && v.x >= 0 && v.y != 0
    requires dx * p <= v.x < dx * p + p && dy * p <= Abs(v.y) < dy * p + p
    ensures VectoringStep(v, k)
      == if v.y > 0 then Vector(v.x + dy, v.y - dx, v.z + angle) else Vector(v.x + dy, v.y + dx, v.z - angle)
  {
    hide Pow2;
    ShiftIs(v.x, k, dx);
    ShiftIs(Abs(v.y), k, dy);
  }

  lemma {:induction false} ShiftIs(m: nat, k: nat, q: nat)
    requires q * Pow2(k) <= m < q * Pow2(k) + Pow2(k)
    ensures Shifted(m, k) == q
  {
    hide Pow2;
    Quotient(m, Pow2(k), q);
  }

  lemma Quotient(m: nat, p: nat, q: nat)
    requires p > 0 && q * p <= m < q * p + p
    ensures m / p == q
  {
    var d := m / p;
    if d < q {
      MulMonotone(d + 1, q, p);
      Distribute(d, 1, p);
    } else if d > q {
      MulMonotone(q + 1, d, p);
      Distribute(q, 1, p);
    }
  }

  lemma AxisTo4()
    ensures Vectored(AXIS, 4)
      == Vector(1_891_511_843_495_608_320, -90_071_992_547_409_920, 1_187_846_199_863_742_532)
  {
    hide Vectored, VectoringStep, Pow2;
    NoVectoring(AXIS);
    AxisFacts0();
    OneVectoring(AXIS, 0);
    StepIs(Vectored(AXIS, 0), 0, 1, 0, 1_152_921_504_606_846_976, 576460752303423488);
    OneVectoring(AXIS, 1);
    StepIs(Vectored(AXIS, 1), 1, 2, 576_460_752_303_423_488, 576_460_752_303_423_488, 340304653033718298);
    OneVectoring(AXIS, 2);
    StepIs(Vectored(AXIS, 2), 2, 4, 432_345_564_227_567_616, 144_115_188_075_855_872, 179807632645220259);
    OneVectoring(AXIS, 3);
    StepIs(Vectored(AXIS, 3), 3, 8, 234_187_180_623_265_792, 18_014_398_509_481_984, 91273161881380487);
  }

  lemma AxisFacts0()
    ensures Pow2(0) == 1 && Pow2(1) == 2 && Pow2(2) == 4 && Pow2(3) == 8
    ensures ATAN_TURNS[0] == 576460752303423488 && ATAN_TURNS[1] == 340304653033718298
    ensures ATAN_TURNS[2] == 179807632645220259 && ATAN_TURNS[3] == 91273161881380487
  {

  }

  lemma AxisTo8()
    ensures Vectored(AXIS, 8)
      == Vector(1_898_519_061_164_195_840, 13_350_497_817_722_880, 1_147_760_250_961_061_873)
  {
    hide Vectored, VectoringStep, Pow2;
    AxisTo4();
    AxisFacts4();
    OneVectoring(AXIS, 4);
    StepIs(Vectored(AXIS, 4), 4, 16, 118_219_490_218_475_520, 5_629_499_534_213_120, 45813697873323707);
    OneVectoring(AXIS, 5);
    StepIs(Vectored(AXIS, 5), 5, 32, 59_285_666_969_681_920, 879_609_302_220_800, 22929182573009054);
    OneVectoring(AXIS, 6);
    StepIs(Vectored(AXIS, 6), 6, 64, 29_656_577_380_188_160, 486_533_895_290_880, 11467389120678282);
    OneVectoring(AXIS, 7);
    StepIs(Vectored(AXIS, 7), 7, 128, 14_832_089_736_151_040, 11_574_936_862_720, 5734044481687724);
  }

  lemma AxisFacts4()
    ensures Pow2(4) == 16 && Pow2(5) == 32 && Pow2(6) == 64 && Pow2(7) == 128
    ensures ATAN_TURNS[4] == 45813697873323707 && ATAN_TURNS[5] == 22929182573009054
    ensures ATAN_TURNS[6] == 11467389120678282 && ATAN_TURNS[7] == 5734044481687724
  {
    AxisFacts0();
  }

  lemma AxisTo12()
    ensures Vectored(AXIS, 12)
      == Vector(1_898_585_157_995_849_512, -554_867_375_705_251, 1_153_136_010_367_317_338)
  {
    hide Vectored, VectoringStep, Pow2;
    AxisTo8();
    AxisFacts8();
    OneVectoring(AXIS, 8);
    StepIs(Vectored(AXIS, 8), 8, 256, 7_416_090_082_672_640, 52_150_382_100_480, 2867065987018958);
    OneVectoring(AXIS, 9);
    StepIs(Vectored(AXIS, 9), 9, 512, 3_708_146_897_551_360, 11_590_640_107_520, 1433538461969102);
    OneVectoring(AXIS, 10);
    StepIs(Vectored(AXIS, 10), 10, 1024, 1_854_084_767_760_160, 2_174_082_849_120, 716769914547871);
    OneVectoring(AXIS, 11);
    StepIs(Vectored(AXIS, 11), 11, 2048, 927_043_445_443_971, 181_726_596_552, 358385042719534);
  }

  lemma AxisFacts8()
    ensures Pow2(8) == 256 && Pow2(9) == 512 && Pow2(10) == 1024 && Pow2(11) == 2048
    ensures ATAN_TURNS[8] == 2867065987018958 && ATAN_TURNS[9] == 1433538461969102
    ensures ATAN_TURNS[10] == 716769914547871 && ATAN_TURNS[11] == 358385042719534
  {
    AxisFacts4();
  }

  lemma AxisTo16()
    ensures Vectored(AXIS, 16)
      == Vector(1_898_585_313_931_117_570, -33_405_384_878_643, 1_152_934_418_768_709_224)
  {
    hide Vectored, VectoringStep, Pow2;
    AxisTo12();
    AxisFacts12();
    OneVectoring(AXIS, 12);
    StepIs(Vectored(AXIS, 12), 12, 4096, 463_521_767_088_830, 135_465_667_896, 179192532040472);
    OneVectoring(AXIS, 13);
    StepIs(Vectored(AXIS, 13), 13, 8192, 231_760_900_080_751, 11_150_586_989, 89596267355325);
    OneVectoring(AXIS, 14);
    StepIs(Vectored(AXIS, 14), 14, 16384, 115_880_450_720_953, 8_570_269_254, 44798133844548);
    OneVectoring(AXIS, 15);
    StepIs(Vectored(AXIS, 15), 15, 32768, 57_940_225_622_020, 748_743_919, 22399066943135);
  }

  lemma AxisFacts12()
    ensures Pow2(12) == 4096 && Pow2(13) == 8192 && Pow2(14) == 16384 && Pow2(15) == 32768
    ensures ATAN_TURNS[12] == 179192532040472 && ATAN_TURNS[13] == 89596267355325
    ensures ATAN_TURNS[14] == 44798133844548 && ATAN_TURNS[15] == 22399066943135
  {
    AxisFacts8();
  }

  lemma AxisTo20()
    ensures Vectored(AXIS, 20)
      == Vector(1_898_585_314_518_373_031, -814_007_952_698, 1_152_921_819_293_550_762)
  {
    hide Vectored, VectoringStep, Pow2;
    AxisTo16();
    AxisFacts16();
    OneVectoring(AXIS, 16);
    StepIs(Vectored(AXIS, 16), 16, 65536, 28_970_112_822_435, 509_725_721, 11199533474175);
    OneVectoring(AXIS, 17);
    StepIs(Vectored(AXIS, 17), 17, 131072, 14_485_056_415_106, 33_838_440, 5599766737413);
    OneVectoring(AXIS, 18);
    StepIs(Vectored(AXIS, 18), 18, 262144, 7_242_528_207_682, 38_336_884, 2799883368747);
    OneVectoring(AXIS, 19);
    StepIs(Vectored(AXIS, 19), 19, 524288, 3_621_264_103_914, 5_354_416, 1399941684379);
  }

  lemma AxisFacts16()
    ensures Pow2(16) == 65536 && Pow2(17) == 131072 && Pow2(18) == 262144 && Pow2(19) == 524288
    ensures ATAN_TURNS[16] == 11199533474175 && ATAN_TURNS[17] == 5599766737413
    ensures ATAN_TURNS[18] == 2799883368747 && ATAN_TURNS[19] == 1399941684379
  {
    AxisFacts12();
  }

  lemma AxisTo24()
    ensures Vectored(AXIS, 24)
      == Vector(1_898_585_314_519_689_401, -135_020_933_212, 1_152_921_556_804_484_941)
  {
    hide Vectored, VectoringStep, Pow2;
    AxisTo20();
    AxisFacts20();
    OneVectoring(AXIS, 20);
    StepIs(Vectored(AXIS, 20), 20, 1048576, 1_810_632_051_962, 776_298, 699970842190);
    OneVectoring(AXIS, 21);
    StepIs(Vectored(AXIS, 21), 21, 2097152, 905_316_025_981, 475_227, 349985421095);
    OneVectoring(AXIS, 22);
    StepIs(Vectored(AXIS, 22), 22, 4194304, 452_658_012_990, 21_769, 174992710548);
    OneVectoring(AXIS, 23);
    StepIs(Vectored(AXIS, 23), 23, 8388608, 226_329_006_495, 43_076, 87496355274);
  }

  lemma AxisFacts20()
    ensures Pow2(20) == 1048576 && Pow2(21) == 2097152 && Pow2(22) == 4194304 && Pow2(23) == 8388608
    ensures ATAN_TURNS[20] == 699970842190 && ATAN_TURNS[21] == 349985421095
    ensures ATAN_TURNS[22] == 174992710548 && ATAN_TURNS[23] == 87496355274
  {
    AxisFacts16();
  }

  lemma AxisTo28()
    ensures Vectored(AXIS, 28)
      == Vector(1_898_585_314_519_698_663, -7_710_867_058, 1_152_921_507_587_785_100)
  {
    hide Vectored, VectoringStep, Pow2;
    AxisTo24();
    AxisFacts24();
    OneVectoring(AXIS, 24);
    StepIs(Vectored(AXIS, 24), 24, 16777216, 113_164_503_247, 8_047, 43748177637);
    OneVectoring(AXIS, 25);
    StepIs(Vectored(AXIS, 25), 25, 33554432, 56_582_251_623, 651, 21874088818);
    OneVectoring(AXIS, 26);
    StepIs(Vectored(AXIS, 26), 26, 67108864, 28_291_125_811, 517, 10937044409);
    OneVectoring(AXIS, 27);
    StepIs(Vectored(AXIS, 27), 27, 134217728, 14_145_562_905, 47, 5468522205);
  }

  lemma AxisFacts24()
    ensures Pow2(24) == 16777216 && Pow2(25) == 33554432 && Pow2(26) == 67108864 && Pow2(27) == 134217728
    ensures ATAN_TURNS[24] == 43748177637 && ATAN_TURNS[25] == 21874088818
    ensures ATAN_TURNS[26] == 10937044409 && ATAN_TURNS[27] == 5468522205
  {
    AxisFacts20();
  }

  lemma AxisTo32()
    ensures Vectored(AXIS, 32)
      == Vector(1_898_585_314_519_698_694, 246_012_076, 1_152_921_504_511_741_361)
  {
    hide Vectored, VectoringStep, Pow2;
    AxisTo28();
    AxisFacts28();
    OneVectoring(AXIS, 28);
    StepIs(Vectored(AXIS, 28), 28, 268435456, 7_072_781_452, 28, 2734261102);
    OneVectoring(AXIS, 29);
    StepIs(Vectored(AXIS, 29), 29, 536870912, 3_536_390_726, 1, 1367130551);
    OneVectoring(AXIS, 30);
    StepIs(Vectored(AXIS, 30), 30, 1073741824, 1_768_195_363, 2, 683565276);
    OneVectoring(AXIS, 31);
    StepIs(Vectored(AXIS, 31), 31, 2147483648, 884_097_681, 0, 341782638);
  }

  lemma AxisFacts28()
    ensures Pow2(28) == 268435456 && Pow2(29) == 536870912 && Pow2(30) == 1073741824 && Pow2(31) == 2147483648
    ensures ATAN_TURNS[28] == 2734261102 && ATAN_TURNS[29] == 1367130551
    ensures ATAN_TURNS[30] == 683565276 && ATAN_TURNS[31] == 341782638
  {
    AxisFacts24();
  }

  function Mirrored(v: Vector): Vector
  {
    Vector(v.x, -v.y, -v.z)
  }

  /** A vector mirrored at the x axis turns the other way. */
  lemma {:induction false} VectoringMirrors(v: Vector, k: nat)
    requires k <= 32
    ensures Vectored(Mirrored(v), k) == Mirrored(Vectored(v, k))
  {
    hide Shifted;
    if k > 0 {
      VectoringMirrors(v, k - 1);
    }
  }

  /** Along the y axis the angles are a quarter and three quarters of a turn. */
  lemma AxisAngles()
    ensures Angle(Vectored(AXIS, 32).z) == ONE / 4
    ensures Angle(Vectored(Mirrored(AXIS), 32).z) == 3 * (ONE / 4)
  {
    hide Vectored, RoundDiv;
    AxisTo32();
    VectoringMirrors(AXIS, 32);
    NearQuarter(Vectored(AXIS, 32).z);
  }

  lemma NearQuarter(z: int)
    requires Abs(z - TURN / 4) < ONE / 2
    ensures Angle(z) == ONE / 4 && Angle(-z) == 3 * (ONE / 4)
  {
    hide RoundMagnitude;
    RoundMagnitudeUnique(z, ONE, ONE / 4);
    RoundMagnitudeUnique(TURN - z, ONE, 3 * (ONE / 4));
  }

  lemma UnitRatioExact(n: int, largest: nat)
    requires largest > 0 && Abs(n) == largest
    ensures RoundDiv(n * ONE, largest) == if n > 0 then ONE else -ONE
  {
    hide RoundDiv;
    RoundDivExact(ONE, largest);
    RoundDivExact(-ONE, largest);
    assert n * ONE == if n > 0 then ONE * largest else -ONE * largest;
  }

  /** The coordinates for the two ratios. */
  function Oriented(nx: int, ny: int): Vector
  {
    if nx < 0 then Vector(-nx * SCALE, -ny * SCALE, TURN / 2) else Vector(nx * SCALE, ny * SCALE, 0)
  }

  lemma StartIs(fy: int, fx: int)
    requires fx != 0 || fy != 0
    ensures Start(fy, fx) == Oriented(RoundDiv(fx * ONE, Largest(fy, fx)), RoundDiv(fy * ONE, Largest(fy, fx)))
  {
    hide RoundDiv;
  }

  lemma OnlyAxis(nx: int, ny: int)
    requires Oriented(nx, ny).x == 0 && (ny == ONE || ny == -ONE)
    ensures Oriented(nx, ny) == if ny > 0 then AXIS else Mirrored(AXIS)
  {
  }

  lemma NoAxis(nx: int, ny: int)
    requires nx == ONE || nx == -ONE
    ensures Oriented(nx, ny).x != 0
  {
  }

  /** Where x rounds to zero, the vector is taken along the y axis. */
  lemma StartOnAxis(fy: int, fx: int)
    requires fy != 0 && fx != 0 && Start(fy, fx).x == 0
    ensures Start(fy, fx) == if fy > 0 then AXIS else Mirrored(AXIS)
  {
    hide RoundDiv, Start, Oriented;
    var largest := Largest(fy, fx);
    var nx, ny := RoundDiv(fx * ONE, largest), RoundDiv(fy * ONE, largest);
    StartIs(fy, fx);
    if Abs(fx) >= Abs(fy) {
      UnitRatioExact(fx, largest);
      NoAxis(nx, ny);
    } else {
      UnitRatioExact(fy, largest);
      OnlyAxis(nx, ny);
    }
  }

  lemma StartFlips(fy: int, fx: int)
    requires fy != 0 && fx != 0
    ensures var v, w := Start(fy, fx), Start(-fy, -fx);
      && w.x == v.x
      && (v.x != 0 ==> w == v.(z := TURN / 2 - v.z))
  {
    hide RoundDiv;
    var largest := Largest(fy, fx);
    RoundDivFlips(fx * ONE, largest);
    RoundDivFlips(fy * ONE, largest);
    assert -fx * ONE == -(fx * ONE) && -fy * ONE == -(fy * ONE);
  }

  // ---------------------------------------------------------------- opposite vectors

  /** The angle is only added up. */
  lemma {:induction false} AngleShifts(v: Vector, c: int, k: nat)
    requires k <= 32
    ensures Vectored(v.(z := v.z + c), k) == Vectored(v, k).(z := Vectored(v, k).z + c)
  {
    hide CoordShift;
    if k > 0 {
      AngleShifts(v, c, k - 1);
    }
  }

  lemma RoundShifts(n: nat, m: nat)
    ensures RoundDiv(n + m * ONE, ONE) == RoundDiv(n, ONE) + m
  {
  }

  lemma HalfOfAxis()
    ensures Wrap(ONE / 4 + ONE / 2) == 3 * (ONE / 4) && Wrap(3 * (ONE / 4) + ONE / 2) == ONE / 4
  {
  }

  lemma {:induction false} OppositeStarts(v: Vector, w: Vector)
    requires v.z == 0 || v.z == TURN / 2
    requires w == v.(z := TURN / 2 - v.z)
    ensures Angle(Vectored(w, 32).z) == Wrap(Angle(Vectored(v, 32).z) + ONE / 2)
  {
    hide Vectored, Angle, Wrap;
    var level := v.(z := 0);
    AngleShifts(level, TURN / 2, 32);
    VectoringAngle(level, 32);
    FirstEntry();
    AngleHalf(Vectored(level, 32).z);
    if v.z == 0 {
      assert v == level && w == level.(z := level.z + TURN / 2);
    } else {
      assert w == level && v == level.(z := level.z + TURN / 2);
    }
  }

  /** Vectors of opposite direction have angles exactly half a turn apart. */
  lemma OppositeVector(fy: int, fx: int)
    requires fy != 0 && fx != 0 && INT64_MIN < fy <= INT64_MAX && INT64_MIN < fx <= INT64_MAX
    ensures Atan2(-fy, -fx).status == OK
    ensures Atan2(-fy, -fx).value == Wrap(Atan2(fy, fx).value + ONE / 2)
  {
    hide Vectored, RoundDiv, Angle, Start, Wrap;
    StartFlips(fy, fx);
    if Start(fy, fx).x == 0 {
      StartOnAxis(fy, fx);
      StartOnAxis(-fy, -fx);
      AxisAngles();
      HalfOfAxis();
    } else {
      StartInUnit(fy, fx);
      OppositeStarts(Start(fy, fx), Start(-fy, -fx));
    }
  }

  lemma AngleHalf(z: int)
    requires Abs(z) < TURN / 2
    ensures Angle(z + TURN / 2) == Wrap(Angle(z) + ONE / 2)
    ensures Angle(z) == Wrap(Angle(z + TURN / 2) + ONE / 2)
  {
    hide RoundDiv;
    var half := z + TURN / 2;
    if z >= 0 {
      RoundShifts(z, ONE / 2);
    } else {
      RoundShifts(half, ONE / 2);
    }
  }
}
