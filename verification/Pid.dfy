/** The fixed-point PID controller of libs/fieldctrl/src/base_impl.h as a function of
    its state without the period cache: what init, retune, reset and step do, and what
    they keep. Rates, gains and terms are F31 integers; limits and outputs are Q15 or
    Q31 signals. */
module Pid {
  import opened Fixed

  /** `linears_fixed_to_q15` and `linears_fixed_to_q31`; plus one becomes the largest
      signal. */
  function Store(f: Format, x: int, s: Status): Result
  {
    if s != OK then Result(0, s)
    else if x < -ONE || x > ONE then Result(0, RANGE)
    else
      var raw := RoundDiv(x, Unit(f));
      Result(if raw == ONE / Unit(f) then raw - 1 else raw, OK)
  }

  datatype Config = Config(kp: int, ki: int, kd: int, lower: int, upper: int,
                           integralLimit: bool, separate: bool, weighted: bool, unknownOption: bool,
                           derivative: int, filter: int, weight: int,
                           integralLower: int, integralUpper: int, separation: int)

  const ON_ERROR := 0
  const ON_MEASUREMENT := 1

  /** What the fields of a configuration can hold. */
  predicate WellTyped(c: Config, f: Format)
  {
    && InRange(c.kp) && InRange(c.ki) && InRange(c.kd) && InRange(c.filter) && InRange(c.weight)
    && Signal(f, c.lower) && Signal(f, c.upper) && Signal(f, c.integralLower) && Signal(f, c.integralUpper)
    && Signal(f, c.separation)
  }

  /** `pid_check`: gains of one sign, ordered limits, parameters of enabled options in
      range. */
  predicate Accepted(c: Config)
  {
    && !((c.kp > 0 || c.ki > 0 || c.kd > 0) && (c.kp < 0 || c.ki < 0 || c.kd < 0))
    && c.lower < c.upper && c.filter >= 0 && !c.unknownOption
    && (c.derivative == ON_ERROR || c.derivative == ON_MEASUREMENT)
    && (c.weighted ==> 0 <= c.weight <= ONE)
    && (c.separate ==> c.separation > 0)
    && (c.integralLimit ==> c.integralLower <= c.integralUpper)
  }

  /** `pid_integral_bounds`. */
  function IntegralLow(c: Config, f: Format): int
  {
    Load(f, if c.integralLimit then c.integralLower else c.lower)
  }

  function IntegralHigh(c: Config, f: Format): int
  {
    Load(f, if c.integralLimit then c.integralUpper else c.upper)
  }

  /** `base_clamp`. */
  function Clamp(x: int, lo: int, hi: int): int
  {
    if x < lo then lo else if x > hi then hi else x
  }

  /** The state of a controller, without what is cached for the last period. */
  datatype Context = Context(config: Config, integral: int, previousError: int, previousMeasurement: int,
                             derivative: int, history: bool)

  predicate Bounded(ctx: Context, f: Format)
  {
    && WellTyped(ctx.config, f) && Accepted(ctx.config)
    && IntegralLow(ctx.config, f) <= ctx.integral <= IntegralHigh(ctx.config, f)
  }

  datatype Reply = Reply(status: Status, context: Context, output: Output)

  datatype Output = Output(output: int, proportional: int, integral: int, derivative: int, saturated: bool)

  const NONE := Output(0, 0, 0, 0, false)

  function Init(before: Context, f: Format, config: Config, integral: int): Reply
  {
    var initial := Load(f, integral);
    if !Accepted(config) || initial < IntegralLow(config, f) || initial > IntegralHigh(config, f) then
      Reply(DOMAIN, before, NONE)
    else Reply(OK, Context(config, initial, 0, 0, 0, false), NONE)
  }

  function Retune(ctx: Context, f: Format, config: Config): Reply
  {
    if !Accepted(config) then Reply(DOMAIN, ctx, NONE)
    else
      Reply(OK,
            ctx.(config := config,
            integral := Clamp(ctx.integral, IntegralLow(config, f), IntegralHigh(config, f)),
            derivative := if config.kd == 0 then 0 else ctx.derivative), NONE)
  }

  function Reset(ctx: Context, f: Format, integral: int): Reply
  {
    var initial := Load(f, integral);
    if initial < IntegralLow(ctx.config, f) || initial > IntegralHigh(ctx.config, f) then Reply(DOMAIN, ctx, NONE)
    else Reply(OK, Context(ctx.config, initial, 0, 0, 0, false), NONE)
  }

  // ---------------------------------------------------------------- one step

  /** What depends on the tuning and the period only. */
  datatype Coefficients = Coefficients(integralStep: int, derivativeGain: int, filterWeight: int, status: Status)

  function Compute(c: Config, period: int, s: Status): Coefficients
  {
    var integralStep := Mul(c.ki, period, s);
    var gain := if c.kd != 0 then Div(c.kd, period, integralStep.status) else Result(0, integralStep.status);
    var sum := Add(c.filter, period, gain.status);
    var weight := if c.filter > 0 then Div(period, sum.value, sum.status) else Result(0, gain.status);
    Coefficients(integralStep.value, gain.value, weight.value, weight.status)
  }

  function Proportional(c: Config, setpoint: int, measurement: int, error: Result): Result
  {
    var weighted := Mul(c.weight, setpoint, error.status);
    var p := if c.weighted then Sub(weighted.value, measurement, weighted.status) else error;
    Mul(c.kp, p.value, p.status)
  }

  /** The integral candidate I'(n). */
  function Integrated(ctx: Context, f: Format, error: int, k: Coefficients): Result
  {
    var size := if ctx.config.separate then AbsChecked(error, k.status) else Result(0, k.status);
    if ctx.config.separate && size.value > Load(f, ctx.config.separation) then Result(ctx.integral, size.status)
    else
      var increment := Mul(k.integralStep, error, size.status);
      var sum := Add(ctx.integral, increment.value, increment.status);
      Result(Clamp(sum.value, IntegralLow(ctx.config, f), IntegralHigh(ctx.config, f)), sum.status)
  }

  function Derived(ctx: Context, error: int, measurement: int, k: Coefficients, s: Status): Result
  {
    if !ctx.history || ctx.config.kd == 0 then Result(ctx.derivative, s)
    else
      var delta := if ctx.config.derivative == ON_MEASUREMENT then Sub(ctx.previousMeasurement, measurement, s)
                   else Sub(error, ctx.previousError, s);
      var draw := Mul(k.derivativeGain, delta.value, delta.status);
      if ctx.config.filter > 0 then
        var difference := Sub(draw.value, ctx.derivative, draw.status);
        var change := Mul(k.filterWeight, difference.value, difference.status);
        Add(ctx.derivative, change.value, change.status)
      else draw
  }

  /** The anti-windup: the integral to be committed. */
  function Limited(c: Config, f: Format, present: int, i: int, pd: int, raw: int): Result
  {
    var lo, hi := Load(f, c.lower), Load(f, c.upper);
    if raw > hi && i > present then
      var boundary := Sub(hi, pd, OK);
      Result(if boundary.value > present then boundary.value else present, boundary.status)
    else if raw < lo && i < present then
      var boundary := Sub(lo, pd, OK);
      Result(if boundary.value < present then boundary.value else present, boundary.status)
    else Result(i, OK)
  }

  /** The terms of a step with given coefficients. */
  datatype Terms = Terms(p: int, i: int, d: int, pd: int, raw: int, status: Status)

  function Evaluate(ctx: Context, f: Format, error: int, measurement: int, p: int, k: Coefficients): Terms
  {
    var i := Integrated(ctx, f, error, k);
    var d := Derived(ctx, error, measurement, k, i.status);
    var pd := Add(p, d.value, d.status);
    var raw := Add(pd.value, i.value, pd.status);
    Terms(p, i.value, d.value, pd.value, raw.value, raw.status)
  }

  function Commit(ctx: Context, f: Format, error: int, measurement: int, t: Terms): Reply
    requires t.status == OK
  {
    var lo, hi := Load(f, ctx.config.lower), Load(f, ctx.config.upper);
    var output := Store(f, Clamp(t.raw, lo, hi), OK);
    var i := Limited(ctx.config, f, ctx.integral, t.i, t.pd, t.raw);
    if output.status != OK then Reply(output.status, ctx, NONE)
    else if i.status != OK then Reply(i.status, ctx, NONE)
    else
      Reply(OK, Context(ctx.config, i.value, error, measurement, t.d, true),
            Output(output.value, t.p, i.value, t.d, t.raw > hi || t.raw < lo))
  }

  /** `pid_step_work` of a controller that computes its coefficients in every step. */
  function Step(ctx: Context, f: Format, setpoint: int, measurement: int, period: int): Reply
  {
    if period <= 0 then Reply(DOMAIN, ctx, NONE)
    else
      var error := Sub(setpoint, measurement, OK);
      var p := Proportional(ctx.config, setpoint, measurement, error);
      var t := Evaluate(ctx, f, error.value, measurement, p.value, Compute(ctx.config, period, p.status));
      if t.status != OK then Reply(t.status, ctx, NONE) else Commit(ctx, f, error.value, measurement, t)
  }

  // ---------------------------------------------------------------- what is kept

  lemma StoreWithin(f: Format, x: int, lower: int, upper: int)
    requires Signal(f, lower) && Signal(f, upper) && Load(f, lower) <= x <= Load(f, upper)
    ensures var r := Store(f, x, OK); r.status == OK && lower <= r.value <= upper
  {
    hide RoundDiv;
    RoundDivExact(lower, Unit(f));
    RoundDivExact(upper, Unit(f));
    RoundDivMonotone(Load(f, lower), x, Unit(f));
    RoundDivMonotone(x, Load(f, upper), Unit(f));
  }

  /** What a successful step from a bounded context promises: the output is inside of its
      limits and the clamped sum of the reported terms, the committed integral is inside
      of its bounds and never moves the sum across a limit. */
  ghost predicate Keeps(ctx: Context, f: Format, r: Reply)
  {
    var lo, hi, o := Load(f, ctx.config.lower), Load(f, ctx.config.upper), r.output;
    var sum := o.proportional + o.integral + o.derivative;
    && Bounded(r.context, f) && r.context.config == ctx.config && r.context.integral == o.integral
    && ctx.config.lower <= o.output <= ctx.config.upper
    && Store(f, Clamp(sum, lo, hi), OK) == Result(o.output, OK)
    && (o.integral > ctx.integral ==> sum <= hi) && (o.integral < ctx.integral ==> sum >= lo)
  }

  /** Every step keeps it, and a failing one changes nothing. */
  lemma StepSafe(ctx: Context, f: Format, setpoint: int, measurement: int, period: int)
    requires Bounded(ctx, f)
    ensures var r := Step(ctx, f, setpoint, measurement, period);
      if r.status == OK then Keeps(ctx, f, r) else r.context == ctx
  {
    hide Store, Compute, Proportional, Integrated, Derived, Bounded, Keeps, Commit, Load;
    var error := Sub(setpoint, measurement, OK);
    var p := Proportional(ctx.config, setpoint, measurement, error);
    var k := Compute(ctx.config, period, p.status);
    var t := Evaluate(ctx, f, error.value, measurement, p.value, k);
    if period > 0 && t.status == OK {
      IntegratedBounded(ctx, f, error.value, k);
      CommitSafe(ctx, f, error.value, measurement, t);
    }
  }

  lemma IntegratedBounded(ctx: Context, f: Format, error: int, k: Coefficients)
    requires Bounded(ctx, f)
    ensures IntegralLow(ctx.config, f) <= Integrated(ctx, f, error, k).value <= IntegralHigh(ctx.config, f)
  {
  }

  lemma CommitSafe(ctx: Context, f: Format, error: int, measurement: int, t: Terms)
    requires Bounded(ctx, f) && t.status == OK && t.pd == t.p + t.d && t.raw == t.pd + t.i
    requires IntegralLow(ctx.config, f) <= t.i <= IntegralHigh(ctx.config, f)
    ensures var r := Commit(ctx, f, error, measurement, t);
      if r.status == OK then Keeps(ctx, f, r) else r.context == ctx
  {
    hide Store, Limited, Accepted, IntegralLow, IntegralHigh, Load, Signal;
    var lo, hi := Load(f, ctx.config.lower), Load(f, ctx.config.upper);
    var i := Limited(ctx.config, f, ctx.integral, t.i, t.pd, t.raw);
    LimitOrder(ctx.config, f);
    LimitedMoves(ctx.config, f, ctx.integral, t.i, t.pd);
    StoreWithin(f, Clamp(t.raw, lo, hi), ctx.config.lower, ctx.config.upper);
  }

  lemma LimitOrder(c: Config, f: Format)
    requires Accepted(c)
    ensures Load(f, c.lower) < Load(f, c.upper)
  {
  }

  /** The anti-windup stops between the old integral and the candidate, does not change
      the command, and lets the sum cross no limit in the direction it moves. */
  lemma LimitedMoves(c: Config, f: Format, present: int, i: int, pd: int)
    requires Load(f, c.lower) < Load(f, c.upper)
    ensures var lo, hi := Load(f, c.lower), Load(f, c.upper);
      var r := Limited(c, f, present, i, pd, pd + i);
      r.status == OK ==>
        && (present <= r.value <= i || i <= r.value <= present)
        && Clamp(pd + r.value, lo, hi) == Clamp(pd + i, lo, hi)
        && (r.value > present ==> pd + r.value <= hi) && (r.value < present ==> pd + r.value >= lo)
        && (lo <= pd + i <= hi ==> r.value == i)
  {
    hide Load;
  }

  lemma InitSafe(before: Context, f: Format, config: Config, integral: int)
    requires WellTyped(config, f)
    ensures var r := Init(before, f, config, integral);
      if r.status == OK then Bounded(r.context, f) else r.context == before
  {
  }

  lemma RetuneSafe(ctx: Context, f: Format, config: Config)
    requires WellTyped(config, f) && Bounded(ctx, f)
    ensures Bounded(Retune(ctx, f, config).context, f)
  {
  }

  lemma ResetSafe(ctx: Context, f: Format, integral: int)
    requires Bounded(ctx, f)
    ensures var r := Reset(ctx, f, integral); Bounded(r.context, f) && (r.status != OK ==> r.context == ctx)
  {
  }

  // ---------------------------------------------------------------- whole runs

  datatype Call =
    | CallInit(config: Config, integral: int)
    | CallRetune(config: Config)
    | CallReset(integral: int)
    | CallStep(setpoint: int, measurement: int, period: int)

  predicate Typed(call: Call, f: Format)
  {
    match call
    case CallInit(config, integral) => WellTyped(config, f) && Signal(f, integral)
    case CallRetune(config) => WellTyped(config, f)
    case CallReset(integral) => Signal(f, integral)
    case CallStep(setpoint, measurement, period) => InRange(setpoint) && InRange(measurement) && InRange(period)
  }

  function Answer(ctx: Context, f: Format, call: Call): Reply
  {
    match call
    case CallInit(config, integral) => Init(ctx, f, config, integral)
    case CallRetune(config) => Retune(ctx, f, config)
    case CallReset(integral) => Reset(ctx, f, integral)
    case CallStep(setpoint, measurement, period) => Step(ctx, f, setpoint, measurement, period)
  }

  /** The replies to a run of calls. */
  function Answers(ctx: Context, f: Format, calls: seq<Call>): (r: seq<Reply>)
    ensures |r| == |calls|
    decreases |calls|
  {
    if calls == [] then []
    else
      var r := Answer(ctx, f, calls[0]);
      [r] + Answers(r.context, f, calls[1..])
  }

  /** No call leaves the bounds, and one that fails changes nothing. */
  lemma AnswerSafe(ctx: Context, f: Format, call: Call)
    requires Bounded(ctx, f) && Typed(call, f)
    ensures var r := Answer(ctx, f, call);
      && Bounded(r.context, f)
      && (r.status != OK ==> r.context == ctx)
      && (r.status == OK && call.CallStep? ==> Keeps(ctx, f, r))
  {
    hide Step, Keeps, Bounded, Accepted, WellTyped;
    match call
    case CallInit(config, integral) => InitSafe(ctx, f, config, integral);
    case CallRetune(config) => RetuneSafe(ctx, f, config);
    case CallReset(integral) => ResetSafe(ctx, f, integral);
    case CallStep(setpoint, measurement, period) =>
      StepSafe(ctx, f, setpoint, measurement, period);
      if Step(ctx, f, setpoint, measurement, period).status == OK {
        KeepsBounded(ctx, f, Step(ctx, f, setpoint, measurement, period));
      }
  }

  lemma KeepsBounded(ctx: Context, f: Format, r: Reply)
    requires Keeps(ctx, f, r)
    ensures Bounded(r.context, f)
  {
  }

  /** Safety over runs of any length and any mix of calls: every step that succeeds
      keeps its promise from the context it started in. */
  lemma {:induction false} RunSafe(ctx: Context, f: Format, calls: seq<Call>, n: nat)
    requires Bounded(ctx, f) && n < |calls| && forall k :: 0 <= k < |calls| ==> Typed(calls[k], f)
    ensures var replies := Answers(ctx, f, calls);
      var before := if n == 0 then ctx else replies[n - 1].context;
      && Bounded(before, f) && replies[n] == Answer(before, f, calls[n])
      && (replies[n].status != OK ==> replies[n].context == before)
      && (replies[n].status == OK && calls[n].CallStep? ==> Keeps(before, f, replies[n]))
    decreases n
  {
    hide Keeps, Bounded, Answer;
    AnswerSafe(ctx, f, calls[0]);
    var r := Answer(ctx, f, calls[0]);
    if n > 0 {
      RunSafe(r.context, f, calls[1..], n - 1);
    }
  }

  /** A reset controller answers every later run as one freshly initialised. */
  lemma {:induction false} ResetIsInit(ctx: Context, other: Context, f: Format, integral: int, calls: seq<Call>)
    requires Bounded(ctx, f)
    ensures var r, i := Reset(ctx, f, integral), Init(other, f, ctx.config, integral);
      && r.status == i.status
      && (r.status == OK ==> Answers(r.context, f, calls) == Answers(i.context, f, calls))
  {
  }
}
