/** What the terms of a controller step are, said by arithmetic on the two inputs, the
    period, the tuning and the sample of the step before: the control law that the
    controller of `Pid` evaluates with its checked operations. */
module PidTerms {
  import opened Fixed
  import opened Pid

  // ---------------------------------------------------------------- the control law

  /** P is the rounded product of its gain and the error; with setpoint weighting the
      error of the weighted setpoint. */
  ghost predicate IsProportional(c: Config, setpoint: int, measurement: int, p: int)
  {
    p == RoundDiv(c.kp * ((if c.weighted then RoundDiv(c.weight * setpoint, ONE) else setpoint) - measurement), ONE)
  }

  /** The error is too large to be integrated. */
  ghost predicate Separated(c: Config, f: Format, error: int)
  {
    c.separate && Abs(error) > Load(f, c.separation)
  }

  /** The integral before anti-windup: the one before moved by (ki * dt) * error and
      clamped, or that one itself when the error is too large to be integrated. */
  ghost predicate IsCandidate(ctx: Context, f: Format, setpoint: int, measurement: int, period: int, i: int)
  {
    var c, error := ctx.config, setpoint - measurement;
    i == if Separated(c, f, error) then ctx.integral
         else Clamp(ctx.integral + RoundDiv(RoundDiv(c.ki * period, ONE) * error, ONE),
                    IntegralLow(c, f), IntegralHigh(c, f))
  }

  /** D is (kd / dt) times the change of the error, or of the measurement with its sign
      turned, since the last sample; filtered, it moves from the last D towards that by
      dt / (Tf + dt) of the distance. Without a gain or a last sample it is held. */
  ghost predicate IsDerivative(ctx: Context, setpoint: int, measurement: int, period: int, d: int)
    requires period > 0 && ctx.config.filter >= 0
  {
    var c := ctx.config;
    if c.kd == 0 || !ctx.history then d == ctx.derivative
    else
      var change := if c.derivative == ON_MEASUREMENT then -(measurement - ctx.previousMeasurement)
                    else (setpoint - measurement) - ctx.previousError;
      var draw := RoundDiv(RoundDiv(c.kd * ONE, period) * change, ONE);
      d == if c.filter == 0 then draw
           else ctx.derivative
                + RoundDiv(RoundDiv(period * ONE, c.filter + period) * (draw - ctx.derivative), ONE)
  }

  /** The command is the clamped sum of the three terms; the committed integral stands
      as near to its candidate as leaves the sum inside of the limit that the move would
      cross, without going back behind the old integral. */
  ghost predicate IsCommand(ctx: Context, f: Format, i: int, o: Output)
  {
    var lo, hi := Load(f, ctx.config.lower), Load(f, ctx.config.upper);
    var pd := o.proportional + o.derivative;
    && o.output == RoundDiv(Clamp(pd + i, lo, hi), Unit(f))
    && o.saturated == !(lo <= pd + i <= hi)
    && (i > ctx.integral ==> o.integral == Clamp(hi - pd, ctx.integral, i))
    && (i < ctx.integral ==> o.integral == Clamp(lo - pd, i, ctx.integral))
    && (i == ctx.integral ==> o.integral == i)
  }

  /** The reply of a successful step from a context, and the context it leaves. */
  ghost predicate Obeys(ctx: Context, f: Format, setpoint: int, measurement: int, period: int, o: Output,
                        after: Context)
  {
    && period > 0 && ctx.config.filter >= 0
    && IsProportional(ctx.config, setpoint, measurement, o.proportional)
    && IsDerivative(ctx, setpoint, measurement, period, o.derivative)
    && (exists i :: IsCandidate(ctx, f, setpoint, measurement, period, i) && IsCommand(ctx, f, i, o))
    && after == Context(ctx.config, o.integral, setpoint - measurement, measurement, o.derivative, true)
  }

  // ---------------------------------------------------------------- every step obeys it

  lemma ProportionalIs(c: Config, setpoint: int, measurement: int)
    ensures var e := Sub(setpoint, measurement, OK);
      var p := Proportional(c, setpoint, measurement, e);
      p.status == OK ==> e == Result(setpoint - measurement, OK) && IsProportional(c, setpoint, measurement, p.value)
  {
    hide RoundDiv, InRange;
  }

  lemma CandidateIs(ctx: Context, f: Format, setpoint: int, measurement: int, period: int)
    ensures var error, k := setpoint - measurement, Compute(ctx.config, period, OK);
      var i := Integrated(ctx, f, error, k);
      i.status == OK ==> k.status == OK && IsCandidate(ctx, f, setpoint, measurement, period, i.value)
  {
    hide RoundDiv, InRange, Load, Clamp, IntegralLow, IntegralHigh;
  }

  lemma DerivativeIs(ctx: Context, setpoint: int, measurement: int, period: int)
    requires period > 0 && ctx.config.filter >= 0
    ensures var error, k := setpoint - measurement, Compute(ctx.config, period, OK);
      var d := Derived(ctx, error, measurement, k, k.status);
      d.status == OK ==> k.status == OK && IsDerivative(ctx, setpoint, measurement, period, d.value)
  {
    hide RoundDiv, InRange;
  }

  lemma CommandIs(ctx: Context, f: Format, error: int, measurement: int, t: Terms)
    requires Bounded(ctx, f) && t.status == OK && t.pd == t.p + t.d && t.raw == t.pd + t.i
    requires IntegralLow(ctx.config, f) <= t.i <= IntegralHigh(ctx.config, f)
    ensures var r := Commit(ctx, f, error, measurement, t);
      r.status == OK ==>
        && IsCommand(ctx, f, t.i, r.output) && r.output.proportional == t.p && r.output.derivative == t.d
        && r.context == Context(ctx.config, r.output.integral, error, measurement, t.d, true)
  {
    hide Store, RoundDiv, Accepted, IntegralLow, IntegralHigh, Load, Signal;
    var lo, hi := Load(f, ctx.config.lower), Load(f, ctx.config.upper);
    LimitOrder(ctx.config, f);
    StoredIs(f, Clamp(t.raw, lo, hi), ctx.config.lower, ctx.config.upper);
  }

  lemma StoredIs(f: Format, x: int, lower: int, upper: int)
    requires Signal(f, lower) && Signal(f, upper) && Load(f, lower) <= x <= Load(f, upper)
    ensures Store(f, x, OK) == Result(RoundDiv(x, Unit(f)), OK)
  {
    hide RoundDiv;
    RoundDivExact(upper, Unit(f));
    RoundDivMonotone(x, Load(f, upper), Unit(f));
  }

  /** The statuses along a step: once one is not OK the later ones are not. */
  lemma Sticky(ctx: Context, f: Format, error: int, measurement: int, p: Result, period: int)
    ensures var k := Compute(ctx.config, period, p.status);
      var i := Integrated(ctx, f, error, k);
      var d := Derived(ctx, error, measurement, k, i.status);
      Evaluate(ctx, f, error, measurement, p.value, k).status == OK ==>
        p.status == k.status == i.status == d.status == OK
  {
    hide RoundDiv, InRange, Load, Clamp, IntegralLow, IntegralHigh;
  }

  lemma Accepts(ctx: Context, f: Format)
    requires Bounded(ctx, f)
    ensures ctx.config.filter >= 0
  {
  }

  /** Every step that succeeds obeys the control law. */
  lemma StepObeys(ctx: Context, f: Format, setpoint: int, measurement: int, period: int)
    requires Bounded(ctx, f)
    ensures var r := Step(ctx, f, setpoint, measurement, period);
      r.status == OK ==> Obeys(ctx, f, setpoint, measurement, period, r.output, r.context)
  {
    hide Bounded, Compute, Proportional, Integrated, Derived, Commit, IsProportional, IsCandidate, IsDerivative,
         IsCommand, InRange;
    if Step(ctx, f, setpoint, measurement, period).status == OK {
      var error := Sub(setpoint, measurement, OK);
      var p := Proportional(ctx.config, setpoint, measurement, error);
      var k := Compute(ctx.config, period, p.status);
      var t := Evaluate(ctx, f, error.value, measurement, p.value, k);
      Sticky(ctx, f, error.value, measurement, p, period);
      ProportionalIs(ctx.config, setpoint, measurement);
      CandidateIs(ctx, f, setpoint, measurement, period);
      Accepts(ctx, f);
      DerivativeIs(ctx, setpoint, measurement, period);
      IntegratedBounded(ctx, f, error.value, k);
      CommandIs(ctx, f, error.value, measurement, t);
    }
  }

  // ---------------------------------------------------------------- when a step succeeds

  /** Every value on the way to P fits. */
  ghost predicate ProportionalFits(c: Config, setpoint: int, measurement: int)
  {
    var w := if c.weighted then RoundDiv(c.weight * setpoint, ONE) else setpoint;
    InRange(setpoint - measurement) && InRange(w) && InRange(w - measurement) &&
    InRange(RoundDiv(c.kp * (w - measurement), ONE))
  }

  /** So does every value on the way to the candidate of the integral. */
  ghost predicate IntegralFits(ctx: Context, f: Format, error: int, period: int)
  {
    var c, rate := ctx.config, RoundDiv(ctx.config.ki * period, ONE);
    && InRange(rate) && (c.separate ==> InRange(Abs(error)))
    && (!Separated(c, f, error) ==>
          InRange(RoundDiv(rate * error, ONE)) && InRange(ctx.integral + RoundDiv(rate * error, ONE)))
  }

  /** And to D. */
  ghost predicate DerivativeFits(ctx: Context, setpoint: int, measurement: int, period: int)
    requires period > 0 && ctx.config.filter >= 0
  {
    var c := ctx.config;
    var gain := RoundDiv(c.kd * ONE, period);
    var change := if c.derivative == ON_MEASUREMENT then -(measurement - ctx.previousMeasurement)
                  else (setpoint - measurement) - ctx.previousError;
    var draw := RoundDiv(gain * change, ONE);
    var move := RoundDiv(RoundDiv(period * ONE, c.filter + period) * (draw - ctx.derivative), ONE);
    && (c.kd != 0 ==> InRange(gain)) && (c.filter > 0 ==> InRange(c.filter + period))
    && (c.kd != 0 && ctx.history ==>
          && InRange(change) && InRange(draw)
          && (c.filter > 0 ==> InRange(draw - ctx.derivative) && InRange(move) && InRange(ctx.derivative + move)))
  }

  /** So do the sums, and the integral that would stand on a crossed limit. */
  ghost predicate SumFits(ctx: Context, f: Format, p: int, i: int, d: int)
  {
    var lo, hi := Load(f, ctx.config.lower), Load(f, ctx.config.upper);
    && InRange(p + d) && InRange(p + d + i)
    && (p + d + i > hi && i > ctx.integral ==> InRange(hi - (p + d)))
    && (p + d + i < lo && i < ctx.integral ==> InRange(lo - (p + d)))
  }

  ghost predicate Fits(ctx: Context, f: Format, setpoint: int, measurement: int, period: int)
    requires period > 0 && ctx.config.filter >= 0
  {
    && ProportionalFits(ctx.config, setpoint, measurement)
    && IntegralFits(ctx, f, setpoint - measurement, period)
    && DerivativeFits(ctx, setpoint, measurement, period)
    && exists p, i, d :: IsProportional(ctx.config, setpoint, measurement, p) &&
                         IsCandidate(ctx, f, setpoint, measurement, period, i) &&
                         IsDerivative(ctx, setpoint, measurement, period, d) && SumFits(ctx, f, p, i, d)
  }

  lemma ProportionalOk(c: Config, setpoint: int, measurement: int)
    requires InRange(setpoint)
    ensures var e := Sub(setpoint, measurement, OK);
      var p := Proportional(c, setpoint, measurement, e);
      && p.status == (if ProportionalFits(c, setpoint, measurement) then OK else RANGE)
  {
    hide RoundDiv, InRange;
  }

  lemma FilterWeightFits(filter: int, period: int)
    requires filter >= 0 && period > 0
    ensures InRange(RoundDiv(period * ONE, filter + period))
  {
    hide RoundDiv;
    assert period * ONE <= ONE * (filter + period);
    RoundDivMonotone(period * ONE, ONE * (filter + period), filter + period);
    RoundDivExact(ONE, filter + period);
    RoundDivMonotone(0 * (filter + period), period * ONE, filter + period);
    RoundDivExact(0, filter + period);
  }

  lemma CoefficientsOk(ctx: Context, f: Format, period: int)
    requires period > 0 && ctx.config.filter >= 0
    ensures var c, k := ctx.config, Compute(ctx.config, period, OK);
      k.status == if InRange(RoundDiv(c.ki * period, ONE)) && (c.filter > 0 ==> InRange(c.filter + period)) &&
                     (c.kd != 0 ==> InRange(RoundDiv(c.kd * ONE, period))) then OK else RANGE
  {
    hide RoundDiv, InRange;
    FilterWeightFits(ctx.config.filter, period);
  }

  lemma IntegralOk(ctx: Context, f: Format, error: int, period: int)
    requires period > 0 && Compute(ctx.config, period, OK).status == OK
    ensures Integrated(ctx, f, error, Compute(ctx.config, period, OK)).status ==
            if IntegralFits(ctx, f, error, period) then OK else RANGE
  {
    hide RoundDiv, InRange, Load, Clamp, IntegralLow, IntegralHigh;
  }

  lemma DerivativeOk(ctx: Context, setpoint: int, measurement: int, period: int)
    requires period > 0 && ctx.config.filter >= 0
    requires Compute(ctx.config, period, OK).status == OK
    ensures Derived(ctx, setpoint - measurement, measurement, Compute(ctx.config, period, OK), OK).status ==
            if DerivativeFits(ctx, setpoint, measurement, period) then OK else RANGE
  {
    hide RoundDiv, InRange;
    CoefficientsOk(ctx, Q31, period);
  }

  lemma CommitOk(ctx: Context, f: Format, error: int, measurement: int, t: Terms)
    requires Bounded(ctx, f) && t.status == OK && t.pd == t.p + t.d && t.raw == t.pd + t.i
    requires InRange(t.pd) && InRange(t.raw)
    ensures Commit(ctx, f, error, measurement, t).status == if SumFits(ctx, f, t.p, t.i, t.d) then OK else RANGE
  {
    hide Store, RoundDiv, Accepted, IntegralLow, IntegralHigh, Load, Signal, InRange;
    var lo, hi := Load(f, ctx.config.lower), Load(f, ctx.config.upper);
    LimitOrder(ctx.config, f);
    StoreWithin(f, Clamp(t.raw, lo, hi), ctx.config.lower, ctx.config.upper);
  }

  /** A failed status is passed on. */
  lemma Fails(ctx: Context, f: Format, error: int, measurement: int, p: Result, period: int)
    ensures var k := Compute(ctx.config, period, p.status);
      var i := Integrated(ctx, f, error, k);
      var d := Derived(ctx, error, measurement, k, i.status);
      && (p.status != OK ==> k.status == p.status) && (k.status != OK ==> i.status == k.status)
      && (i.status != OK ==> d.status == i.status)
  {
    hide RoundDiv, InRange, Load, Clamp, IntegralLow, IntegralHigh;
  }

  /** The values that the law asks for are unique, so are their sums. */
  lemma FitsTerms(ctx: Context, f: Format, setpoint: int, measurement: int, period: int, p: int, i: int, d: int)
    requires period > 0 && ctx.config.filter >= 0
    requires IsProportional(ctx.config, setpoint, measurement, p)
    requires IsCandidate(ctx, f, setpoint, measurement, period, i)
    requires IsDerivative(ctx, setpoint, measurement, period, d)
    ensures Fits(ctx, f, setpoint, measurement, period) ==
            (&& ProportionalFits(ctx.config, setpoint, measurement)
             && IntegralFits(ctx, f, setpoint - measurement, period)
             && DerivativeFits(ctx, setpoint, measurement, period) && SumFits(ctx, f, p, i, d))
  {
    hide RoundDiv, InRange, Load, Clamp, IntegralLow, IntegralHigh, ProportionalFits, IntegralFits, DerivativeFits,
         SumFits;
  }

  /** A step fails for a period that is not positive, or where a value on the way to the
      three terms or their sum needs more than 64 bits, and for nothing else. */
  lemma StepStatus(ctx: Context, f: Format, setpoint: int, measurement: int, period: int)
    requires Bounded(ctx, f) && InRange(setpoint)
    ensures Step(ctx, f, setpoint, measurement, period).status ==
            if period <= 0 then DOMAIN else if Fits(ctx, f, setpoint, measurement, period) then OK else RANGE
  {
    hide Bounded, Compute, Proportional, Integrated, Derived, Commit, IsProportional, IsCandidate, IsDerivative,
         InRange, Fits, ProportionalFits, IntegralFits, DerivativeFits;
    if period > 0 {
      var error := Sub(setpoint, measurement, OK);
      var p := Proportional(ctx.config, setpoint, measurement, error);
      var k := Compute(ctx.config, period, p.status);
      var i := Integrated(ctx, f, error.value, k);
      var d := Derived(ctx, error.value, measurement, k, i.status);
      var t := Evaluate(ctx, f, error.value, measurement, p.value, k);
      Accepts(ctx, f);
      Fails(ctx, f, error.value, measurement, p, period);
      ProportionalOk(ctx.config, setpoint, measurement);
      if Fits(ctx, f, setpoint, measurement, period) {
        FitsParts(ctx, f, setpoint, measurement, period);
      }
      if p.status == OK {
        ProportionalIs(ctx.config, setpoint, measurement);
        CoefficientsOk(ctx, f, period);
        if k.status == OK {
          IntegralOk(ctx, f, error.value, period);
          if i.status == OK {
            CandidateIs(ctx, f, setpoint, measurement, period);
            DerivativeOk(ctx, setpoint, measurement, period);
            if d.status == OK {
              DerivativeIs(ctx, setpoint, measurement, period);
              FitsTerms(ctx, f, setpoint, measurement, period, p.value, i.value, d.value);
              if t.status == OK {
                CommitOk(ctx, f, error.value, measurement, t);
              }
            }
          }
        }
      }
    }
  }

  lemma FitsParts(ctx: Context, f: Format, setpoint: int, measurement: int, period: int)
    requires period > 0 && ctx.config.filter >= 0 && Fits(ctx, f, setpoint, measurement, period)
    ensures ProportionalFits(ctx.config, setpoint, measurement)
    ensures IntegralFits(ctx, f, setpoint - measurement, period)
    ensures DerivativeFits(ctx, setpoint, measurement, period)
    ensures var c := ctx.config;
      InRange(RoundDiv(c.ki * period, ONE)) && (c.filter > 0 ==> InRange(c.filter + period)) &&
      (c.kd != 0 ==> InRange(RoundDiv(c.kd * ONE, period)))
  {
    hide RoundDiv, InRange;
  }

  // ---------------------------------------------------------------- directions

  lemma ProductMonotone(k: int, a: int, b: int)
    requires k >= 0 && a <= b
    ensures k * a <= k * b
  {
    assert k * (b - a) >= 0;
  }

  /** With gains that are not negative a larger setpoint from the same state never gives
      a smaller P, and a larger measurement never a larger one. */
  lemma ProportionalMonotone(ctx: Context, f: Format, s: int, t: int, measurement: int, other: int, period: int)
    requires Bounded(ctx, f) && ctx.config.kp >= 0 && s <= t && measurement >= other
    ensures var q, r := Step(ctx, f, s, measurement, period), Step(ctx, f, t, other, period);
      q.status == OK && r.status == OK ==> q.output.proportional <= r.output.proportional
  {
    hide Step, RoundDiv;
    var c := ctx.config;
    StepObeys(ctx, f, s, measurement, period);
    StepObeys(ctx, f, t, other, period);
    if c.weighted {
      ProductMonotone(c.weight, s, t);
      RoundDivMonotone(c.weight * s, c.weight * t, ONE);
    }
    var a := (if c.weighted then RoundDiv(c.weight * s, ONE) else s) - measurement;
    var b := (if c.weighted then RoundDiv(c.weight * t, ONE) else t) - other;
    ProductMonotone(c.kp, a, b);
    RoundDivMonotone(c.kp * a, c.kp * b, ONE);
  }

  lemma RoundedSign(k: int, x: int, d: int)
    requires d > 0
    ensures k >= 0 && x >= 0 ==> RoundDiv(k * x, d) >= 0
    ensures k >= 0 && x <= 0 ==> RoundDiv(k * x, d) <= 0
  {
    hide RoundDiv;
    RoundDivExact(0, d);
    if k >= 0 && x >= 0 {
      ProductMonotone(k, 0, x);
      RoundDivMonotone(0, k * x, d);
    } else if k >= 0 && x <= 0 {
      ProductMonotone(k, x, 0);
      RoundDivMonotone(k * x, 0, d);
    }
  }

  /** With gains that are not negative the integral moves towards the setpoint: it does
      not fall while the measurement is below and does not rise while it is above. */
  lemma IntegralFollows(ctx: Context, f: Format, setpoint: int, measurement: int, period: int)
    requires Bounded(ctx, f) && ctx.config.ki >= 0
    ensures var r := Step(ctx, f, setpoint, measurement, period);
      r.status == OK ==>
        && (setpoint >= measurement ==> r.context.integral >= ctx.integral)
        && (setpoint <= measurement ==> r.context.integral <= ctx.integral)
  {
    hide Step, RoundDiv, Separated;
    StepObeys(ctx, f, setpoint, measurement, period);
    if Step(ctx, f, setpoint, measurement, period).status == OK {
      RoundedSign(ctx.config.ki, period, ONE);
      RoundedSign(RoundDiv(ctx.config.ki * period, ONE), setpoint - measurement, ONE);
    }
  }

  /** The unfiltered D of a gain that is not negative points with the change of the error,
      or against the change of the measurement. */
  lemma DerivativeDirection(ctx: Context, f: Format, setpoint: int, measurement: int, period: int)
    requires Bounded(ctx, f) && ctx.config.kd > 0 && ctx.config.filter == 0 && ctx.history
    ensures var r, c := Step(ctx, f, setpoint, measurement, period), ctx.config;
      r.status == OK ==>
        && (c.derivative == ON_MEASUREMENT && measurement >= ctx.previousMeasurement ==> r.output.derivative <= 0)
        && (c.derivative == ON_MEASUREMENT && measurement <= ctx.previousMeasurement ==> r.output.derivative >= 0)
        && (c.derivative == ON_ERROR && setpoint - measurement >= ctx.previousError ==> r.output.derivative >= 0)
        && (c.derivative == ON_ERROR && setpoint - measurement <= ctx.previousError ==> r.output.derivative <= 0)
  {
    hide Step, RoundDiv, IsProportional, IsCandidate, IsCommand;
    var c := ctx.config;
    StepObeys(ctx, f, setpoint, measurement, period);
    if Step(ctx, f, setpoint, measurement, period).status == OK {
      var change := if c.derivative == ON_MEASUREMENT then -(measurement - ctx.previousMeasurement)
                    else (setpoint - measurement) - ctx.previousError;
      RoundedSign(c.kd, ONE, period);
      RoundedSign(RoundDiv(c.kd * ONE, period), change, ONE);
    }
  }

  /** Gain one, an error of half of the range: P and the command are half of the range. */
  lemma HalfRange()
    ensures var c := Config(ONE, 0, 0, -0x4000_0000, 0x4000_0000, false, false, false, false, 0, 0, 0, 0, 0, 0);
      var r := Step(Context(c, 0, 0, 0, 0, false), Q31, 0x2000_0000, 0, 1);
      r.status == OK && r.output.output == 0x2000_0000
  {
  }

  // ---------------------------------------------------------------- over runs

  /** Between the calls m and n the controller took no sample and was not started anew. */
  ghost predicate Quiet(calls: seq<Call>, replies: seq<Reply>, m: nat, n: nat)
    requires |calls| == |replies| && m < n <= |calls|
  {
    forall k :: m < k < n ==> replies[k].status != OK || calls[k].CallRetune?
  }

  /** A retune among them took the derivative gain away. */
  ghost predicate Dropped(calls: seq<Call>, replies: seq<Reply>, m: nat, n: nat)
    requires |calls| == |replies| && m < n <= |calls|
  {
    exists k :: m < k < n && replies[k].status == OK && calls[k].CallRetune? && calls[k].config.kd == 0
  }

  /** What a call that succeeds leaves for the next step to differentiate against. */
  lemma SampleOf(before: Context, f: Format, call: Call)
    requires Bounded(before, f) && Answer(before, f, call).status == OK && !call.CallRetune?
    ensures var r := Answer(before, f, call);
      match call
      case CallStep(setpoint, measurement, _) =>
        && r.context.history && r.context.previousError == setpoint - measurement
        && r.context.previousMeasurement == measurement && r.context.derivative == r.output.derivative
      case _ => !r.context.history && r.context.derivative == 0
  {
    hide Step, Bounded;
    match call
    case CallStep(setpoint, measurement, period) => StepObeys(before, f, setpoint, measurement, period);
    case _ =>
  }

  /** A call that fails or retunes leaves the sample alone. */
  lemma QuietOne(before: Context, f: Format, call: Call)
    requires Answer(before, f, call).status != OK || call.CallRetune?
    requires Answer(before, f, call).status != OK ==> Answer(before, f, call).context == before
    ensures var r := Answer(before, f, call);
      && r.context.history == before.history && r.context.previousError == before.previousError
      && r.context.previousMeasurement == before.previousMeasurement
      && r.context.derivative ==
         if r.status == OK && call.CallRetune? && call.config.kd == 0 then 0 else before.derivative
  {
    hide Step, Accepted;
  }

  /** The sample that a step differentiates against is that of the last step that
      succeeded, whatever failed or was retuned since; there is none if the controller
      was initialised or reset after it. */
  lemma {:induction false} LastSample(ctx: Context, f: Format, calls: seq<Call>, m: nat, n: nat)
    requires Bounded(ctx, f) && m < n <= |calls| && forall k :: 0 <= k < |calls| ==> Typed(calls[k], f)
    requires var replies := Answers(ctx, f, calls); Quiet(calls, replies, m, n) && replies[m].status == OK
    requires !calls[m].CallRetune?
    ensures var replies := Answers(ctx, f, calls);
      var before := replies[n - 1].context;
      match calls[m]
      case CallStep(setpoint, measurement, _) =>
        && before.history && before.previousError == setpoint - measurement
        && before.previousMeasurement == measurement
        && before.derivative == if Dropped(calls, replies, m, n) then 0 else replies[m].output.derivative
      case _ => !before.history && before.derivative == 0
    decreases n - m
  {
    hide Step, Bounded, Obeys, Keeps, Answers;
    var replies := Answers(ctx, f, calls);
    RunSafe(ctx, f, calls, n - 1);
    var before := if n == 1 then ctx else replies[n - 2].context;
    if n == m + 1 {
      SampleOf(before, f, calls[m]);
    } else {
      LastSample(ctx, f, calls, m, n - 1);
      QuietOne(before, f, calls[n - 1]);
    }
  }

  /** In every run, every step that succeeds obeys the law with the tuning and the
      integral that the call before left. */
  lemma {:induction false} RunObeys(ctx: Context, f: Format, calls: seq<Call>, n: nat)
    requires Bounded(ctx, f) && n < |calls| && forall k :: 0 <= k < |calls| ==> Typed(calls[k], f)
    ensures var replies := Answers(ctx, f, calls);
      var before := if n == 0 then ctx else replies[n - 1].context;
      replies[n].status == OK && calls[n].CallStep? ==>
        Obeys(before, f, calls[n].setpoint, calls[n].measurement, calls[n].period, replies[n].output,
              replies[n].context)
  {
    hide Obeys, Bounded, Step, Keeps;
    RunSafe(ctx, f, calls, n);
    var before := if n == 0 then ctx else Answers(ctx, f, calls)[n - 1].context;
    if calls[n].CallStep? {
      StepObeys(before, f, calls[n].setpoint, calls[n].measurement, calls[n].period);
    }
  }

  // ---------------------------------------------------------------- the other calls

  /** What the calls that take no sample make of the state. Starting sets the integral and
      forgets the rest; a retune keeps everything but moves the integral to the nearest
      value of its new bounds, and takes the derivative away with its gain. */
  lemma CallsSet(ctx: Context, f: Format, call: Call)
    requires Bounded(ctx, f) && !call.CallStep? && Answer(ctx, f, call).status == OK
    ensures var after := Answer(ctx, f, call).context;
      match call
      case CallInit(config, integral) => after == Context(config, integral * Unit(f), 0, 0, 0, false)
      case CallReset(integral) => after == Context(ctx.config, integral * Unit(f), 0, 0, 0, false)
      case CallRetune(config) =>
        var lo, hi := IntegralLow(config, f), IntegralHigh(config, f);
        && after == Context(config, after.integral, ctx.previousError, ctx.previousMeasurement, after.derivative,
                            ctx.history)
        && after.derivative == (if config.kd == 0 then 0 else ctx.derivative)
        && lo <= after.integral <= hi
        && (lo <= ctx.integral <= hi ==> after.integral == ctx.integral)
        && (ctx.integral < lo ==> after.integral == lo) && (ctx.integral > hi ==> after.integral == hi)
  {
    match call
    case CallRetune(config) => RetuneBounds(config, f);
    case _ =>
  }

  lemma RetuneBounds(config: Config, f: Format)
    requires Accepted(config)
    ensures IntegralLow(config, f) <= IntegralHigh(config, f)
  {
  }

  /** A tuning is accepted when its gains are all of one sign, direct or reverse action,
      its limits are ordered and the parameters of its enabled options are in range. */
  ghost predicate Sound(c: Config)
  {
    && ((c.kp >= 0 && c.ki >= 0 && c.kd >= 0) || (c.kp <= 0 && c.ki <= 0 && c.kd <= 0))
    && c.lower < c.upper && 0 <= c.filter && c.derivative in {0, 1} && !c.unknownOption
    && (c.weighted ==> 0 <= c.weight <= ONE) && (c.separate ==> 0 < c.separation)
    && (c.integralLimit ==> c.integralLower <= c.integralUpper)
  }

  /** Starting and retuning succeed exactly for such a tuning, and starting only within
      the bounds of the integral. */
  lemma CallsAccept(ctx: Context, f: Format, call: Call)
    ensures var ok := Answer(ctx, f, call).status == OK;
      match call
      case CallInit(c, integral) => ok <==> Sound(c) && Inside(c, integral)
      case CallReset(integral) => ok <==> Inside(ctx.config, integral)
      case CallRetune(c) => ok <==> Sound(c)
      case _ => true
  {
    hide Step;
  }

  /** The integral is within the limits that bound it, in the units of signals. */
  ghost predicate Inside(c: Config, integral: int)
  {
    if c.integralLimit then c.integralLower <= integral <= c.integralUpper else c.lower <= integral <= c.upper
  }
}
