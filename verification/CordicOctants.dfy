/** Where sine and cosine of the CORDIC of libs/fieldctrl/src/cordic.c point: for every
    angle both have the sign of its quadrant, the larger one is that of its octant, and
    the point they make is within one unit of the circle. Nothing is excepted. */
module CordicOctants {
  import opened Fixed
  import opened Cordic

  // ---------------------------------------------------------------- walks

  /** A vector after the given turns from step `i` on. */
  function Walk(v: Vector, i: nat, turns: seq<bool>): Vector
    requires i + |turns| <= 32
    decreases |turns|
  {
    if turns == [] then v else Walk(Turned(v, i, turns[0]), i + 1, turns[1..])
  }

  /** Every turn goes toward angle zero; with no angle left it may go either way. */
  predicate Homing(v: Vector, i: nat, turns: seq<bool>)
    requires i + |turns| <= 32
    decreases |turns|
  {
    turns == [] ||
    ((if turns[0] then v.z >= 0 else v.z <= 0) && Homing(Turned(v, i, turns[0]), i + 1, turns[1..]))
  }

  /** The turns that the rotation makes. */
  function Turns(v: Vector, i: nat): (r: seq<bool>)
    requires i <= 32
    ensures |r| == 32 - i && Homing(v, i, r)
    decreases 32 - i
  {
    if i == 32 then [] else [v.z >= 0] + Turns(Turned(v, i, v.z >= 0), i + 1)
  }

  lemma {:induction false} RotatedWalks(v: Vector, i: nat)
    requires i <= 32
    ensures var u := Rotated(v, i); Walk(u, i, Turns(u, i)) == Rotated(v, 32)
    decreases 32 - i
  {
    hide Turned;
    if i < 32 {
      RotatedWalks(v, i + 1);
    }
  }

  // ---------------------------------------------------------------- symmetries

  /** The mirror image at the first diagonal. */
  function Swapped(v: Vector): Vector
  {
    Vector(v.y, v.x, -v.z)
  }

  function Opposite(turns: seq<bool>): (r: seq<bool>)
    ensures |r| == |turns|
  {
    if turns == [] then [] else [!turns[0]] + Opposite(turns[1..])
  }

  lemma SwappedTurn(v: Vector, i: nat, forward: bool)
    requires i < 32
    ensures Turned(Swapped(v), i, !forward) == Swapped(Turned(v, i, forward))
  {
    hide CoordShift;
  }

  lemma {:induction false} SwappedWalk(v: Vector, i: nat, turns: seq<bool>)
    requires i + |turns| <= 32 && Homing(v, i, turns)
    ensures Homing(Swapped(v), i, Opposite(turns))
    ensures Walk(Swapped(v), i, Opposite(turns)) == Swapped(Walk(v, i, turns))
    decreases |turns|
  {
    hide Turned;
    if turns != [] {
      SwappedTurn(v, i, turns[0]);
      SwappedWalk(Turned(v, i, turns[0]), i + 1, turns[1..]);
    }
  }

  /** The vector a quarter of a turn back. */
  function QuarterBack(v: Vector): Vector
  {
    Vector(v.y, -v.x, v.z)
  }

  lemma ShiftFlips(value: int, bits: nat)
    ensures CoordShift(-value, bits) == -CoordShift(value, bits)
  {
    hide Pow2;
    assert 0 / Pow2(bits) == 0;
  }

  lemma BackTurn(v: Vector, i: nat)
    ensures QuarterBack(v).z == v.z
    ensures i < 32 ==> forall forward ::
      Turned(QuarterBack(v), i, forward) == QuarterBack(Turned(v, i, forward))
  {
    hide CoordShift;
    ShiftFlips(v.x, i);
  }

  /** Division toward zero makes it exact. */
  lemma {:induction false} BackWalk(v: Vector, i: nat)
    requires i <= 32
    ensures Turns(QuarterBack(v), i) == Turns(v, i)
    ensures Walk(QuarterBack(v), i, Turns(v, i)) == QuarterBack(Walk(v, i, Turns(v, i)))
    decreases 32 - i
  {
    hide Turned, QuarterBack;
    BackTurn(v, i);
    if i < 32 {
      BackWalk(Turned(v, i, v.z >= 0), i + 1);
    }
  }

  // ---------------------------------------------------------------- cones

  /** The lines whose sides are told apart: the x axis and the first diagonal. */
  datatype Line = Axis | Diagonal

  /** How far a vector is beyond the line, and how far it reaches along it. */
  function Height(l: Line, v: Vector): int
  {
    if l == Axis then v.y else v.y - v.x
  }

  function Reach(l: Line, v: Vector): int
  {
    if l == Axis then v.x else v.x + v.y
  }

  /** What truncation may take from either in one step. */
  function Loss(l: Line): nat
  {
    if l == Axis then 0 else 2
  }

  function Slack(l: Line, i: nat): int
  {
    if l == Axis then 0 else 64 * (32 - i)
  }

  /** So far beyond the line, on both of its ends, that the steps from `i` on cannot turn
      the vector back across it: the tangents of all of them together are below
      2 * 2^-i + 4 * 8^-i. */
  predicate Beyond(l: Line, v: Vector, i: nat)
  {
    var p := Pow2(i);
    (Height(l, v) - Slack(l, i)) * (p * p * p) >= (2 * (p * p) + 4) * Abs(Reach(l, v))
  }

  lemma TurnMoves(l: Line, v: Vector, i: nat, forward: bool)
    requires i < 32
    ensures var p, w := Pow2(i), Turned(v, i, forward);
      && p * Height(l, w) >= p * Height(l, v) - Abs(Reach(l, v)) - Loss(l) * p
      && p * Abs(Reach(l, w)) <= p * Abs(Reach(l, v)) + Abs(Height(l, v)) + Loss(l) * p
  {
    hide Pow2, CoordShift;
    var dx, dy := CoordShift(v.x, i), CoordShift(v.y, i);
    var rx := ShiftBounds(v.x, i);
    var ry := ShiftBounds(v.y, i);
    hide Abs;
    Shares(l, v.x, v.y, dx, dy, Pow2(i), rx, ry);
    var m := if l == Axis then dx else dx + dy;
    var n := if l == Axis then dy else dy - dx;
    Negated(m, Pow2(i));
    Negated(n, Pow2(i));
    if forward {
      Moves(Pow2(i), Height(l, v), Reach(l, v), m, -n, Loss(l));
    } else {
      Moves(Pow2(i), Height(l, v), Reach(l, v), -m, n, Loss(l));
    }
  }

  lemma Negated(a: int, p: nat)
    ensures -a * p == -(a * p) && Abs(-a * p) == Abs(a * p)
  {
  }

  /** What a turn adds to the distance and to the reach, up to the sign. */
  lemma Shares(l: Line, x: int, y: int, dx: int, dy: int, p: nat, rx: int, ry: int)
    requires x == dx * p + rx && y == dy * p + ry && Abs(rx) < p && Abs(ry) < p
    requires Abs(dx) * p <= Abs(x) && Abs(dy) * p <= Abs(y)
    ensures var m, n := if l == Axis then dx else dx + dy, if l == Axis then dy else dy - dx;
      && Abs(m * p) <= Abs(Reach(l, Vector(x, y, 0))) + Loss(l) * p
      && Abs(n * p) <= Abs(Height(l, Vector(x, y, 0))) + Loss(l) * p
  {
    if l == Axis {
      SmallShift(x, dx, p);
      SmallShift(y, dy, p);
    } else {
      Distribute(dx, dy, p);
      Distribute(dy, dx, p);
      Remainders(x, y, dx * p, dy * p, p, rx, ry);
    }
  }

  lemma Remainders(x: int, y: int, a: int, b: int, p: nat, rx: int, ry: int)
    requires x == a + rx && y == b + ry && Abs(rx) < p && Abs(ry) < p
    ensures Abs(a + b) <= Abs(x + y) + 2 * p && Abs(b - a) <= Abs(y - x) + 2 * p
  {
  }

  lemma SmallShift(a: int, d: int, p: nat)
    requires Abs(d) * p <= Abs(a)
    ensures Abs(d * p) <= Abs(a)
  {
    AbsProduct(d, p);
  }

  lemma Moves(p: nat, a: int, b: int, m: int, n: int, e: nat)
    requires Abs(m * p) <= Abs(b) + e * p && Abs(n * p) <= Abs(a) + e * p
    ensures p * (a + m) >= p * a - Abs(b) - e * p
    ensures p * Abs(b + n) <= p * Abs(b) + Abs(a) + e * p
  {
    AbsProduct(p, b + n);
    AbsProduct(p, b);
    assert p * (a + m) == p * a + m * p && p * (b + n) == p * b + n * p;
  }

  /** A turn keeps the vector beyond the line. */
  lemma {:induction false} BeyondStays(l: Line, v: Vector, i: nat, forward: bool)
    requires (if l == Axis then 1 else 3) <= i < 32 && Beyond(l, v, i)
    ensures Beyond(l, Turned(v, i, forward), i + 1)
  {
    hide Pow2, Height, Reach, Turned, Abs, Slack, Loss;
    var p, w := Pow2(i), Turned(v, i, forward);
    var a, b, c, d := Height(l, v), Abs(Reach(l, v)), Height(l, w), Abs(Reach(l, w));
    TurnMoves(l, v, i, forward);
    PowerSizes(i);
    SlackFits(l, i, p);
    SlackNatural(l, i);
    HeightPositive(a, b, p, Slack(l, i));
    AbsPositive(a);
    ConeArithmetic(a, b, c, d, p, Loss(l), Slack(l, i), Slack(l, i + 1));
  }

  lemma SlackNatural(l: Line, i: nat)
    requires i < 32
    ensures Slack(l, i) >= 0 && Slack(l, i + 1) >= 0
  {
  }

  lemma AbsPositive(a: int)
    requires a >= 0
    ensures Abs(a) == a
  {
  }

  lemma PowerSizes(i: nat)
    requires i >= 1
    ensures Pow2(i + 1) == 2 * Pow2(i) && Pow2(i) >= 2 && (i >= 3 ==> Pow2(i) >= 8)
  {
    if i >= 3 {
      assert Pow2(i) == 2 * Pow2(i - 1) && Pow2(i - 1) == 2 * Pow2(i - 2) && Pow2(i - 2) == 2 * Pow2(i - 3);
    }
  }

  lemma NotNegative(a: int, c: nat, d: nat)
    requires c > 0 && a * c >= d
    ensures a >= 0
  {
    if a < 0 {
      Gap(0, a, c);
    }
  }

  lemma HeightPositive(a: int, b: nat, p: nat, s: nat)
    requires p > 0 && (a - s) * (p * p * p) >= (2 * (p * p) + 4) * b
    ensures a >= s
  {
    NotNegative(a - s, p * p * p, (2 * (p * p) + 4) * b);
  }

  lemma SlackArithmetic(q: nat, r: nat, c: nat, p: nat, t: nat)
    requires c == q * p && p <= q && 64 <= q && r >= 64 * q && c <= r && t * q <= 64 * 28 * q && t <= 64 * 28
    ensures (64 + t) * (8 * r - 8 * q - 4) >= (2 + t) * (8 * r) + (8 * q + 4) * (2 * p)
  {
    assert (64 + t) * (8 * r - 8 * q - 4) == 512 * r - 512 * q - 256 + 8 * (t * r) - 8 * (t * q) - 4 * t;
    assert (2 + t) * (8 * r) == 16 * r + 8 * (t * r);
    assert (8 * q + 4) * (2 * p) == 16 * c + 8 * p;
  }

  lemma SlackFits(l: Line, i: nat, p: nat)
    requires (if l == Axis then 2 else 8) <= p && (if l == Axis then 1 else 3) <= i < 32
    ensures var q, e := p * p, Loss(l);
      Slack(l, i) * (8 * (q * q) - 8 * q - 4) >= (e + Slack(l, i + 1)) * (8 * (q * q)) + (8 * q + 4) * (e * p)
  {
    var q, t := p * p, Slack(l, i + 1);
    if l == Diagonal {
      MulMonotone(8, p, p);
      MulMonotone(64, q, q);
      MulMonotone(p, q, q);
      MulMonotone(t, 64 * 28, q);
      SlackArithmetic(q, q * q, q * p, p, t);
    }
  }

  lemma SharePolynomials(p: nat)
    requires p >= 2
    ensures var q := p * p;
      && 8 * (q * q) - 8 * q - 4 >= 0 && q * p > 0
      && (2 * q + 4) * (8 * (q * q) - 8 * q - 4) >= q * p * (16 * (q * p) + 4 * p)
  {
    var q := p * p;
    MulMonotone(2, p, p);
    MulMonotone(4, q, q);
    Cubes(q, p);
  }

  lemma Cubes(q: nat, p: nat)
    requires q == p * p && q >= 4 && q * q >= 4 * q
    ensures (2 * q + 4) * (8 * (q * q) - 8 * q - 4) == 16 * (q * (q * q)) + 16 * (q * q) - 40 * q - 16
    ensures q * p * (16 * (q * p) + 4 * p) == 16 * (q * (q * q)) + 4 * (q * q)
    ensures 12 * (q * q) >= 40 * q + 16
  {
    assert q * p * (q * p) == q * (q * (p * p));
    assert q * p * p == q * (p * p);
    assert q * p * (16 * (q * p) + 4 * p) == 16 * (q * p * (q * p)) + 4 * (q * p * p);
  }

  lemma ShareOut(a: int, b: nat, c: nat, m: nat, g: nat, h: nat)
    requires c > 0 && a * c >= h * b && h * m >= c * g
    ensures a * m >= g * b
  {
    assert (a * c - h * b) * m >= 0;
    MulMonotone(c * g, h * m, b);
    assert h * b * m == h * m * b && c * g * b == g * b * c && a * c * m == a * m * c;
    if a * m < g * b {
      Gap(g * b, a * m, c);
    }
  }

  /** How far beyond a vector is, against what the rest of the steps can take. */
  lemma ConeShare(a: int, b: nat, p: nat)
    requires p >= 2 && a * (p * p * p) >= (2 * (p * p) + 4) * b
    ensures var q := p * p; a * (8 * (q * q) - 8 * q - 4) >= (16 * (q * p) + 4 * p) * b
  {
    var q := p * p;
    SharePolynomials(p);
    ShareOut(a, b, q * p, 8 * (q * q) - 8 * q - 4, 16 * (q * p) + 4 * p, 2 * q + 4);
  }

  lemma ConeArithmetic(a: nat, b: nat, c: int, d: nat, p: nat, e: nat, s: nat, t: nat)
    requires p >= 2 && (a - s) * (p * p * p) >= (2 * (p * p) + 4) * b
    requires p * c >= p * a - b - e * p && p * d <= p * b + a + e * p
    requires var q := p * p; s * (8 * (q * q) - 8 * q - 4) >= (e + t) * (8 * (q * q)) + (8 * q + 4) * (e * p)
    ensures var r := 2 * p; (c - t) * (r * r * r) >= (2 * (r * r) + 4) * d
  {
    var q := p * p;
    var m := 8 * (q * q) - 8 * q - 4;
    ConeShare(a - s, b, p);
    assert (a - s) * m == a * m - s * m;
    var h, k := 8 * (q * p), 8 * q + 4;
    LowerSide(a, b, c, p, e, t);
    UpperSide(a, b, d, p, e);
    assert a * m == 8 * (q * q) * a - 8 * q * a - 4 * a;
    if (c - t) * h < k * d {
      Gap(k * d, (c - t) * h, p);
    }
  }

  lemma Weighted(a: nat, b: nat, c: int, p: nat, e: nat, t: nat, h: nat)
    requires p * c >= p * a - b - e * p
    ensures (c - t) * h * p >= h * p * a - h * b - (e + t) * (h * p)
  {
    assert (p * c - (p * a - b - e * p)) * h >= 0;
    assert p * c * h == c * (h * p) && p * a * h == h * p * a && e * p * h == e * (h * p);
    assert (c - t) * h * p == c * (h * p) - t * (h * p);
    assert (p * a - b - e * p) * h == p * a * h - b * h - e * p * h;
  }

  lemma LowerSide(a: nat, b: nat, c: int, p: nat, e: nat, t: nat)
    requires p * c >= p * a - b - e * p
    ensures var q := p * p;
      (c - t) * (8 * (q * p)) * p >= 8 * (q * q) * a - 8 * (q * p) * b - (e + t) * (8 * (q * q))
  {
    var q := p * p;
    var h := 8 * (q * p);
    assert q * p * p == q * (p * p);
    Weighted(a, b, c, p, e, t, h);
  }

  lemma UpperSide(a: nat, b: nat, d: nat, p: nat, e: nat)
    requires p * d <= p * b + a + e * p
    ensures var q := p * p;
      (8 * q + 4) * d * p <= (8 * (q * p) + 4 * p) * b + 8 * q * a + 4 * a + (8 * q + 4) * (e * p)
  {
    var q := p * p;
    assert (p * b + a + e * p - p * d) * (8 * q + 4) >= 0;
  }

  lemma {:induction false} BeyondToEnd(l: Line, v: Vector, i: nat, turns: seq<bool>)
    requires (if l == Axis then 1 else 3) <= i && i + |turns| == 32 && Beyond(l, v, i)
    ensures Beyond(l, Walk(v, i, turns), 32)
    decreases |turns|
  {
    hide Beyond, Turned;
    if turns != [] {
      BeyondStays(l, v, i, turns[0]);
      BeyondToEnd(l, Turned(v, i, turns[0]), i + 1, turns[1..]);
    }
  }

  // ---------------------------------------------------------------- the paths on the lines

  /** A path of the rotation from step `i` to its end. Wherever it turns on, it has not
      passed the line; wherever it turns back, turning on instead leads beyond the line
      for good, and so much angle is left that the later steps cannot make up for it. */
  predicate Clear(l: Line, v: Vector, i: nat, end: Vector)
    requires i <= 32
    decreases 32 - i
  {
    if i == 32 then v == end
    else if v.z >= 0 then Height(l, v) <= 0 && v.x >= START && Clear(l, Turned(v, i, true), i + 1, end)
    else
      && -v.z * (Pow2(i) * Pow2(i)) >= ATAN_TURNS[i]
      && (if l == Axis then 1 else 2) <= i && Beyond(l, Turned(v, i, true), i + 1)
      && Clear(l, Turned(v, i, false), i + 1, end)
  }

  lemma ClearEnd(l: Line, end: Vector)
    ensures Clear(l, end, 32, end)
  {
  }

  lemma ClearStep(l: Line, v: Vector, i: nat, end: Vector)
    requires i < 32 && Clear(l, Turned(v, i, v.z >= 0), i + 1, end)
    requires v.z >= 0 ==> Height(l, v) <= 0 && v.x >= START
    requires v.z < 0 ==> (if l == Axis then 1 else 2) <= i && Beyond(l, Turned(v, i, true), i + 1)
    requires v.z < 0 ==> -v.z * (Pow2(i) * Pow2(i)) >= ATAN_TURNS[i]
    ensures Clear(l, v, i, end)
  {
    hide Beyond, Turned, Pow2, Height;
  }

  /** The quotient toward zero. */
  predicate Quotient(a: int, p: nat, d: int)
  {
    if a >= 0 then d * p <= a < d * p + p else d * p - p < a <= d * p
  }

  lemma ShiftIs(a: int, i: nat, d: int)
    requires Quotient(a, Pow2(i), d)
    ensures CoordShift(a, i) == d
  {
    hide Pow2;
    var m, q, p := Abs(a), Abs(a) / Pow2(i), Pow2(i);
    var e := if a < 0 then -d else d;
    assert m == q * p + m % p;
    assert -d * p == -(d * p);
    if e > q {
      Gap(e, q, p);
    } else if e < q {
      Gap(q, e, p);
    }
  }

  /** One step forward on a path, from what the coordinates are shifted to. */
  lemma On(l: Line, v: Vector, i: nat, p: nat, dx: int, dy: int, end: Vector)
    requires 1 <= i < 32 && Pow2(i) == p && v.z >= 0 && Quotient(v.x, p, dx) && Quotient(v.y, p, dy)
    requires Height(l, v) <= 0 && v.x >= START
    requires Clear(l, Vector(v.x - dy, v.y + dx, v.z - ATAN_TURNS[i]), i + 1, end)
    ensures Clear(l, v, i, end)
  {
    hide Pow2, Beyond, CoordShift, Clear, Quotient;
    ShiftIs(v.x, i, dx);
    ShiftIs(v.y, i, dy);
    ClearStep(l, v, i, end);
  }

  /** One step back. */
  lemma Back(l: Line, v: Vector, i: nat, p: nat, dx: int, dy: int, end: Vector)
    requires (if l == Axis then 1 else 2) <= i < 32
    requires Pow2(i) == p && v.z < 0 && Quotient(v.x, p, dx) && Quotient(v.y, p, dy)
    requires -v.z * (p * p) >= ATAN_TURNS[i]
    requires Clear(l, Vector(v.x + dy, v.y - dx, v.z + ATAN_TURNS[i]), i + 1, end)
    requires var w, r := Vector(v.x - dy, v.y + dx, 0), 2 * p;
      (Height(l, w) - Slack(l, i + 1)) * (r * r * r) >= (2 * (r * r) + 4) * Abs(Reach(l, w))
    ensures Clear(l, v, i, end)
  {
    hide Pow2, CoordShift, Clear, Quotient, Slack;
    ShiftIs(v.x, i, dx);
    ShiftIs(v.y, i, dy);
    PowerSizes(i);
    ClearStep(l, v, i, end);
  }

  lemma Powers31()
    ensures Pow2(1) == 0x2
    ensures Pow2(2) == 0x4
    ensures Pow2(3) == 0x8
    ensures Pow2(4) == 0x10
    ensures Pow2(5) == 0x20
    ensures Pow2(6) == 0x40
    ensures Pow2(7) == 0x80
    ensures Pow2(8) == 0x100
    ensures Pow2(9) == 0x200
    ensures Pow2(10) == 0x400
    ensures Pow2(11) == 0x800
    ensures Pow2(12) == 0x1000
    ensures Pow2(13) == 0x2000
    ensures Pow2(14) == 0x4000
    ensures Pow2(15) == 0x8000
    ensures Pow2(16) == 0x1_0000
    ensures Pow2(17) == 0x2_0000
    ensures Pow2(18) == 0x4_0000
    ensures Pow2(19) == 0x8_0000
    ensures Pow2(20) == 0x10_0000
    ensures Pow2(21) == 0x20_0000
    ensures Pow2(22) == 0x40_0000
    ensures Pow2(23) == 0x80_0000
    ensures Pow2(24) == 0x100_0000
    ensures Pow2(25) == 0x200_0000
    ensures Pow2(26) == 0x400_0000
    ensures Pow2(27) == 0x800_0000
    ensures Pow2(28) == 0x1000_0000
    ensures Pow2(29) == 0x2000_0000
    ensures Pow2(30) == 0x4000_0000
    ensures Pow2(31) == 0x8000_0000
  {
  }

  /** Where the paths of the angle zero and of an eighth of a turn end. */
  const AXIS_END := Vector(1152921504606846963, 149391558, -95105615)
  const DIAGONAL_END := Vector(815238614004613468, 815238614161984311, -70841777)

  /** The path of the angle zero, from its end back to its second step. */
  lemma AxisClear25()
    ensures Clear(Axis, Vector(1152921504606846207, -13272381243, 8449460328), 25, AXIS_END)
  {
    hide Clear, Pow2, Beyond;
    Powers31();
    ClearEnd(Axis, AXIS_END);
    Back(Axis, Vector(1152921504606846963, 686262469, -436888253), 31, 0x8000_0000, 536870911, 0, AXIS_END);
    Back(Axis, Vector(1152921504606846962, 1760004292, -1120453529), 30, 0x4000_0000, 1073741823, 1, AXIS_END);
    On(Axis, Vector(1152921504606846962, -387479355, 246677022), 29, 0x2000_0000, 2147483647, 0, AXIS_END);
    On(Axis, Vector(1152921504606846945, -4682446650, 2980938124), 28, 0x1000_0000, 4294967295, -17, AXIS_END);
    Back(Axis, Vector(1152921504606846916, 3907487941, -2487584081), 27, 0x800_0000, 8589934591, 29, AXIS_END);
    Back(Axis, Vector(1152921504606846602, 21087357124, -13424628490), 26, 0x400_0000, 17179869183, 314, AXIS_END);
    On(Axis, Vector(1152921504606846207, -13272381243, 8449460328), 25, 0x200_0000, 34359738367, -395, AXIS_END);
  }

  lemma AxisClear19()
    ensures Clear(Axis, Vector(1152921504602790467, 1704714537150, -1085254980593), 19, AXIS_END)
  {
    hide Clear, Pow2, Beyond;
    Powers31();
    AxisClear25();
    On(Axis, Vector(1152921504606841320, -81991857978, 52197637965), 24, 0x100_0000, 68719476735, -4887, AXIS_END);
    On(Axis, Vector(1152921504606815162, -219430811449, 139693993239), 23, 0x80_0000, 137438953471, -26158, AXIS_END);
    Back(Axis, Vector(1152921504606801943, 55447095494, -35298717309), 22, 0x40_0000, 274877906943, 13219, AXIS_END);
    Back(Axis, Vector(1152921504606513360, 605202909381, -385284138404), 21, 0x20_0000, 549755813887, 288583, AXIS_END);
    On(Axis, Vector(1152921504606041951, -494308718394, 314686703786), 20, 0x10_0000, 1099511627775, -471409, AXIS_END);
    Back(Axis, Vector(1152921504602790467, 1704714537150, -1085254980593),
         19, 0x8_0000, 2199023255544, 3251484, AXIS_END);
  }

  lemma AxisClear13()
    ensures Clear(Axis, Vector(1152921491819204574, -55469888932492, 35313228429890), 13, AXIS_END)
  {
    hide Clear, Pow2, Beyond;
    Powers31();
    AxisClear19();
    Back(Axis, Vector(1152921504579510282, 6102761048149, -3885138349340),
         18, 0x4_0000, 4398046510999, 23280185, AXIS_END);
    On(Axis, Vector(1152921504558961790, -2693331973693, 1714628388073),
       17, 0x2_0000, 8796093021842, -20548492, AXIS_END);
    On(Axis, Vector(1152921504249429350, -20285518012655, 12914161862248),
       16, 0x1_0000, 17592186038962, -309532440, AXIS_END);
    Back(Axis, Vector(1152921503794752408, 14898854051393, -9484905080887),
         15, 0x8000, 35184372064048, 454676942, AXIS_END);
    Back(Axis, Vector(1152921498590431250, 85267597861844, -54283038925435),
         14, 0x4000, 70368743810451, 5204321158, AXIS_END);
    On(Axis, Vector(1152921491819204574, -55469888932492, 35313228429890),
       13, 0x2000, 140737486794336, -6771226676, AXIS_END);
  }

  lemma AxisClear7()
    ensures Clear(Axis, Vector(1152874243147881243, -899701040950938, 572790835902621), 7, AXIS_END)
  {
    hide Clear, Pow2, Beyond;
    Powers31();
    AxisClear13();
    On(Axis, Vector(1152921409557280151, -336944842437687, 214505760470362),
       12, 0x1000, 281474953505195, -82261924423, AXIS_END);
    Back(Axis, Vector(1152921299203271026, 226005010688910, -143879282249172),
         11, 0x800, 562949853126597, 110354009125, AXIS_END);
    Back(Axis, Vector(1152919978985079946, 1351903427666527, -860649196797043),
         10, 0x400, 1125898416977617, 1320218191080, AXIS_END);
    Back(Axis, Vector(1152912940534856023, 3603686514648667, -2294187658766145),
         9, 0x200, 2251783086982140, 7038450223923, AXIS_END);
    Back(Axis, Vector(1152881272062263672, 8107128983641884, -5161253645785103),
         8, 0x100, 4503442468993217, 31668472592351, AXIS_END);
    On(Axis, Vector(1152874243147881243, -899701040950938, 572790835902621),
       7, 0x80, 9006830024592822, -7028914382429, AXIS_END);
  }

  lemma AxisClear1()
    ensures Clear(Axis, Vector(700114967507363239, 700114967507363239, -576460752303423488), 1, AXIS_END)
  {
    hide Clear, Pow2, Beyond;
    Powers31();
    AxisClear7();
    On(Axis, Vector(1152578794011984553, -18908744697388196, 12040179956580903),
       6, 0x40, 18009043656437258, -295449135896690, AXIS_END);
    Back(Axis, Vector(1152044648681549859, 17092650573910237, -10889002616428151),
         5, 0x20, 36001395271298433, 534145330434694, AXIS_END);
    On(Axis, Vector(1148626118566767813, -54696481836512751, 34924695256895556),
       4, 0x10, 71789132410422988, -3418530114782046, AXIS_END);
    Back(Axis, Vector(1137686822199465263, 87514370938420406, -56348466624484931),
         3, 0x8, 142210852774933157, 10939296367302550, AXIS_END);
    Back(Axis, Vector(1050172451261044858, 350057483753681620, -236156099269705190),
         2, 0x4, 262543112815261214, 87514370938420405, AXIS_END);
    Back(Axis, Vector(700114967507363239, 700114967507363239, -576460752303423488),
         1, 0x2, 350057483753681619, 350057483753681619, AXIS_END);
  }

  /** That of an eighth of a turn. */
  lemma DiagonalClear25()
    ensures Clear(Diagonal, Vector(815238637161741469, 815238591004854690, 20777899128), 25, DIAGONAL_END)
  {
    hide Clear, Pow2, Beyond;
    Powers31();
    ClearEnd(Diagonal, DIAGONAL_END);
    Back(Diagonal, Vector(815238613624988406, 815238614541609373, -412624415),
         31, 0x8000_0000, 379625062, 379625062, DIAGONAL_END);
    On(Diagonal, Vector(815238614384238530, 815238613782359248, 270940861),
       30, 0x4000_0000, 759250125, 759250124, DIAGONAL_END);
    On(Diagonal, Vector(815238615902738776, 815238612263858995, 1638071412),
       29, 0x2000_0000, 1518500253, 1518500246, DIAGONAL_END);
    On(Diagonal, Vector(815238618939739257, 815238609226858477, 4372332514),
       28, 0x1000_0000, 3037000518, 3037000481, DIAGONAL_END);
    On(Diagonal, Vector(815238625013740175, 815238603152857396, 9840854719),
       27, 0x800_0000, 6074001081, 6074000918, DIAGONAL_END);
    Back(Diagonal, Vector(815238612865738157, 815238615300859377, -1096189690),
         26, 0x400_0000, 12148001981, 12148002018, DIAGONAL_END);
    On(Diagonal, Vector(815238637161741469, 815238591004854690, 20777899128),
       25, 0x200_0000, 24296004687, 24296003312, DIAGONAL_END);
  }

  lemma DiagonalClear19()
    ensures Clear(Diagonal, Vector(815241504083114512, 815235724069283813, 2601920379703), 19, DIAGONAL_END)
  {
    hide Clear, Pow2, Beyond;
    Powers31();
    DiagonalClear25();
    On(Diagonal, Vector(815238685753745196, 815238542412842419, 64526076765),
       24, 0x100_0000, 48592012271, 48592003727, DIAGONAL_END);
    Back(Diagonal, Vector(815238588569726156, 815238639596855376, -22970278509),
         23, 0x80_0000, 97184012957, 97184019040, DIAGONAL_END);
    On(Diagonal, Vector(815238782937717896, 815238445228783120, 152022432039),
       22, 0x40_0000, 194368072256, 194367991740, DIAGONAL_END);
    On(Diagonal, Vector(815239171673516012, 815238056492453244, 502007853134),
       21, 0x20_0000, 388736329876, 388735798116, DIAGONAL_END);
    On(Diagonal, Vector(815239949144370789, 815237279019052037, 1201978695324),
       20, 0x10_0000, 777473401207, 777470854777, DIAGONAL_END);
    On(Diagonal, Vector(815241504083114512, 815235724069283813, 2601920379703),
       19, 0x8_0000, 1554949768224, 1554938743723, DIAGONAL_END);
  }

  lemma DiagonalClear13()
    ensures Clear(Diagonal, Vector(815300581516248708, 815176625741192045, 55799703990774), 13, DIAGONAL_END)
  {
    hide Clear, Pow2, Beyond;
    Powers31();
    DiagonalClear19();
    On(Diagonal, Vector(815244613948738588, 815232614157884168, 5401803748450),
       18, 0x4_0000, 3109911399645, 3109865624076, DIAGONAL_END);
    Back(Diagonal, Vector(815238394170037316, 815238833933230313, -197962988963),
         17, 0x2_0000, 6219775346145, 6219778701272, DIAGONAL_END);
    Back(Diagonal, Vector(815225954422825187, 815251273294107126, -11397496463138),
         16, 0x1_0000, 12439360876813, 12439747212129, DIAGONAL_END);
    On(Diagonal, Vector(815250833157987940, 815226393813114756, 11001570479997),
       15, 0x8000, 24879480992370, 24878735162753, DIAGONAL_END);
    Back(Diagonal, Vector(815201072650801786, 815276149737959165, -33796563364551),
         14, 0x4000, 49755924844409, 49760507186154, DIAGONAL_END);
    On(Diagonal, Vector(815300581516248708, 815176625741192045, 55799703990774),
       13, 0x2000, 99523996767120, 99508865446922, DIAGONAL_END);
  }

  lemma DiagonalClear7()
    ensures Clear(Diagonal, Vector(827316002656249948, 802912237872014830, 10986411059893491), 7, DIAGONAL_END)
  {
    hide Clear, Pow2, Beyond;
    Powers31();
    DiagonalClear13();
    Back(Diagonal, Vector(815101515201518593, 815375625134551790, -123392828049698),
         12, 0x1000, 198999393359745, 199066314730115, DIAGONAL_END);
    On(Diagonal, Vector(815499453400757885, 814977432042070952, 234992214669836),
       11, 0x800, 398193092480838, 397938199239292, DIAGONAL_END);
    On(Diagonal, Vector(816294551320088253, 814180269394297429, 951762129217707),
       10, 0x400, 797162647773523, 795097919330368, DIAGONAL_END);
    On(Diagonal, Vector(817881627187942151, 812582844341195980, 2385300591186809),
       9, 0x200, 1597425053101449, 1587075867853898, DIAGONAL_END);
    On(Diagonal, Vector(821043250797874833, 809375644142766782, 5252366578205767),
       8, 0x100, 3207200198429198, 3161623609932682, DIAGONAL_END);
    On(Diagonal, Vector(827316002656249948, 802912237872014830, 10986411059893491),
       7, 0x80, 6463406270751952, 6272751858375115, DIAGONAL_END);
  }

  lemma DiagonalClear1()
    ensures Clear(Diagonal, Vector(700114967507363239, 700114967507363239, 0), 1, DIAGONAL_END)
  {
    hide Clear, Pow2, Beyond;
    Powers31();
    DiagonalClear7();
    Back(Diagonal, Vector(814571628912909651, 815639919573779043, -480978060784791),
         6, 0x40, 12727681701764213, 12744373743340297, DIAGONAL_END);
    Back(Diagonal, Vector(788313044468740052, 840274702213427169, -23410160633793845),
         5, 0x20, 24634782639648126, 26258584444169599, DIAGONAL_END);
    Back(Diagonal, Vector(732932856609270890, 886083005751506599, -69223858507117552),
         4, 0x10, 45808303538079430, 55380187859469162, DIAGONAL_END);
    Back(Diagonal, Vector(612600596568942834, 962658080322624453, -160497020388498039),
         3, 0x8, 76575074571117854, 120332260040328056, DIAGONAL_END);
    Back(Diagonal, Vector(350057483753681620, 1050172451261044858, -340304653033718298),
         2, 0x4, 87514370938420405, 262543112815261214, DIAGONAL_END);
    On(Diagonal, Vector(700114967507363239, 700114967507363239, 0),
       1, 0x2, 350057483753681619, 350057483753681619, DIAGONAL_END);
  }

  // ---------------------------------------------------------------- crossing a line

  lemma TurnsAlike(u: Vector, v: Vector, i: nat)
    requires i < 32 && u.x == v.x && u.y == v.y
    ensures forall forward :: Turned(u, i, forward) == Turned(v, i, forward).(z := Turned(v, i, forward).z + u.z - v.z)
  {
    hide CoordShift;
  }

  /** A path for a larger angle takes the same turns or ends beyond the line. */
  lemma {:induction false} Passes(l: Line, u: Vector, v: Vector, i: nat, turns: seq<bool>, end: Vector)
    requires u.x == v.x && u.y == v.y && u.z < v.z
    requires i + |turns| == 32 && Homing(v, i, turns) && Clear(l, u, i, end)
    ensures var f := Walk(v, i, turns);
      Beyond(l, f, 32) || f == Vector(end.x, end.y, end.z + v.z - u.z)
    decreases |turns|
  {
    hide Beyond, Turned, Height, Pow2;
    if turns != [] {
      var w := Turned(v, i, turns[0]);
      TurnsAlike(u, v, i);
      if turns[0] && u.z < 0 {
        BeyondAt(l, Turned(u, i, true), w, i + 1);
        BeyondToEnd(l, w, i + 1, turns[1..]);
      } else {
        Passes(l, Turned(u, i, u.z >= 0), w, i + 1, turns[1..], end);
      }
    }
  }

  lemma BeyondAt(l: Line, v: Vector, w: Vector, i: nat)
    requires v.x == w.x && v.y == w.y && Beyond(l, v, i)
    ensures Beyond(l, w, i)
  {
  }

  lemma {:induction false} ClearEnds(l: Line, v: Vector, i: nat, end: Vector)
    requires i <= 32 && Clear(l, v, i, end)
    ensures Walk(v, i, Turns(v, i)) == end
    decreases 32 - i
  {
    hide Beyond, Turned;
    if i < 32 {
      ClearEnds(l, Turned(v, i, v.z >= 0), i + 1, end);
    }
  }

  const EIGHTH := 0x800_0000_0000_0000

  /** What the first step makes of an angle that is not negative. */
  function Corner(z: int): Vector
  {
    Vector(START, START, z)
  }

  /** Paths from the corner whose angle is a whole number of inputs end beyond the lines
      that the angle is beyond. */
  lemma {:induction false} CornerBeyond(z: int, turns: seq<bool>)
    requires |turns| == 31 && Homing(Corner(z), 1, turns) && Abs(Walk(Corner(z), 1, turns).z) <= 341782638
    ensures z >= ONE - EIGHTH ==> Beyond(Axis, Walk(Corner(z), 1, turns), 32)
    ensures z >= ONE ==> Beyond(Diagonal, Walk(Corner(z), 1, turns), 32)
  {
    hide Walk, Beyond, Clear, Homing;
    AxisClear1();
    DiagonalClear1();
    if z >= ONE - EIGHTH {
      Passes(Axis, Corner(-EIGHTH), Corner(z), 1, turns, AXIS_END);
    }
    if z >= ONE {
      Passes(Diagonal, Corner(0), Corner(z), 1, turns, DIAGONAL_END);
    }
  }

  lemma FirstStep(z: int)
    ensures z >= 0 ==> Rotated(Vector(START, 0, z), 1) == Corner(z - EIGHTH)
    ensures z < 0 ==> Rotated(Vector(START, 0, z), 1) == Vector(START, -START, z + EIGHTH)
  {
    assert Rotated(Vector(START, 0, z), 0) == Vector(START, 0, z);
    assert CoordShift(START, 0) == START && CoordShift(0, 0) == 0;
  }

  /** Every angle inside of the first quadrant: the vector ends beyond both axes, and
      beyond the diagonal on the side of the angle. */
  lemma {:induction false} FirstQuadrant(z: int)
    requires ONE <= z <= QUARTER - ONE
    ensures var v := Rotated(Vector(START, 0, z), 32);
      && Beyond(Axis, v, 32) && Beyond(Axis, Swapped(v), 32)
      && (z >= EIGHTH + ONE ==> Beyond(Diagonal, v, 32))
      && (z <= EIGHTH - ONE ==> Beyond(Diagonal, Swapped(v), 32))
      && (z == EIGHTH ==> v == DIAGONAL_END)
  {
    hide Walk, Beyond, Clear, Homing, Rotated, Turns, Opposite;
    var u := Corner(z - EIGHTH);
    var turns := Turns(u, 1);
    FirstStep(z);
    RotatedWalks(Vector(START, 0, z), 1);
    LeftoverAngle(z);
    CornerBeyond(z - EIGHTH, turns);
    SwappedWalk(u, 1, turns);
    CornerBeyond(EIGHTH - z, Opposite(turns));
    if z == EIGHTH {
      DiagonalClear1();
      ClearEnds(Diagonal, u, 1, DIAGONAL_END);
    }
  }
}
