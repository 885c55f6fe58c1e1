/** The controller as it runs: a context that its calls update in place, with the
    coefficients of the last period cached. It answers every run of calls as the
    controller of `Pid` does, which caches nothing. */
module PidController {
  import opened Fixed
  import P = Pid
  import PidTerms

  class Controller {
    const format: Format
    var config: P.Config
    var integral: int
    var previousError: int
    var previousMeasurement: int
    var derivative: int
    var cachedDt: int
    var integralStep: int
    var derivativeGain: int
    var filterWeight: int
    var history: bool

    /** What a caller could see of the context. */
    function View(): P.Context
      reads this
    {
      P.Context(config, integral, previousError, previousMeasurement, derivative, history)
    }

    /** The cache holds what a step with the cached period would compute. */
    ghost predicate Cached()
      reads this
    {
      cachedDt != 0 ==>
        var k := P.Compute(config, cachedDt, OK);
        && cachedDt > 0 && k.status == OK && integralStep == k.integralStep
        && (config.kd != 0 ==> derivativeGain == k.derivativeGain)
        && (config.filter > 0 ==> filterWeight == k.filterWeight)
    }

    ghost predicate Valid()
      reads this
    {
      P.Bounded(View(), format) && Cached()
    }

    /** Memory for a context: what it holds before `pid_init` is not known. */
    constructor (format: Format)
      ensures this.format == format
    {
      this.format := format;
    }

    /** `pid_init` on any memory, initialised before or not. */
    method Init(config: P.Config, integral: int) returns (status: Status)
      requires P.WellTyped(config, format)
      modifies this
      ensures View() == P.Init(old(View()), format, config, integral).context
      ensures status == P.Init(old(View()), format, config, integral).status
      ensures status == OK || old(Valid()) ==> Valid()
      ensures status != OK ==> unchanged(this)
    {
      hide P.Bounded, P.Compute;
      P.InitSafe(View(), format, config, integral);
      var initial := Load(format, integral);
      if !P.Accepted(config) {
        return DOMAIN;
      }
      if initial < P.IntegralLow(config, format) || initial > P.IntegralHigh(config, format) {
        return DOMAIN;
      }
      this.config, this.integral := config, initial;
      previousError, previousMeasurement, derivative, history := 0, 0, 0, false;
      cachedDt, integralStep, derivativeGain, filterWeight := 0, 0, 0, 0;
      status := OK;
    }

    /** `pid_retune`: the cache stays while nothing it depends on changes. */
    method Retune(config: P.Config) returns (status: Status)
      requires Valid() && P.WellTyped(config, format)
      modifies this
      ensures Valid() && View() == P.Retune(old(View()), format, config).context
      ensures status == P.Retune(old(View()), format, config).status
      ensures status != OK ==> unchanged(this)
    {
      hide P.Compute;
      if !P.Accepted(config) {
        return DOMAIN;
      }
      SameCoefficients(this.config, config, cachedDt);
      P.RetuneSafe(View(), format, config);
      if config.ki != this.config.ki || config.kd != this.config.kd || config.filter != this.config.filter {
        cachedDt := 0;
      }
      if config.kd == 0 {
        derivative := 0;
      }
      integral := P.Clamp(integral, P.IntegralLow(config, format), P.IntegralHigh(config, format));
      this.config := config;
      status := OK;
    }

    /** `pid_reset`: the cache stays. */
    method Reset(integral: int) returns (status: Status)
      requires Valid()
      modifies this
      ensures Valid() && View() == P.Reset(old(View()), format, integral).context
      ensures status == P.Reset(old(View()), format, integral).status
      ensures status != OK ==> unchanged(this)
    {
      hide P.Compute;
      var initial := Load(format, integral);
      if initial < P.IntegralLow(config, format) || initial > P.IntegralHigh(config, format) {
        return DOMAIN;
      }
      this.integral := initial;
      previousError, previousMeasurement, derivative, history := 0, 0, 0, false;
      status := OK;
    }

    /** `pid_step_work`: the coefficients are computed only when the period changes, and
        nothing is written before every operation has succeeded. */
    method Step(setpoint: int, measurement: int, period: int) returns (status: Status, output: P.Output)
      requires Valid() && InRange(setpoint) && InRange(measurement) && InRange(period)
      modifies this
      ensures Valid() && View() == P.Step(old(View()), format, setpoint, measurement, period).context
      ensures var r := P.Step(old(View()), format, setpoint, measurement, period);
        status == r.status && output == r.output
      ensures status == OK ==>
        PidTerms.Obeys(old(View()), format, setpoint, measurement, period, output, View())
      ensures status == if period <= 0 then DOMAIN
                        else if old(PidTerms.Fits(View(), format, setpoint, measurement, period)) then OK else RANGE
      ensures status != OK ==> unchanged(this)
    {
      hide P.Compute, P.Proportional, P.Evaluate, P.Commit, P.Bounded, PidTerms.Obeys, PidTerms.Fits;
      PidTerms.Accepts(View(), format);
      PidTerms.StepObeys(View(), format, setpoint, measurement, period);
      PidTerms.StepStatus(View(), format, setpoint, measurement, period);
      if period <= 0 {
        return DOMAIN, P.NONE;
      }
      var error := Sub(setpoint, measurement, OK);
      var p := P.Proportional(config, setpoint, measurement, error);
      var k := P.Coefficients(integralStep, derivativeGain, filterWeight, p.status);
      if period != cachedDt {
        var computed := P.Compute(config, period, p.status);
        k := computed.(derivativeGain := if config.kd != 0 then computed.derivativeGain else derivativeGain,
        filterWeight := if config.filter > 0 then computed.filterWeight else filterWeight);
      }
      ComputeSticky(config, period, p.status);
      ghost var computed := P.Compute(config, period, p.status);
      var t := P.Evaluate(View(), format, error.value, measurement, p.value, k);
      SameTerms(View(), format, error.value, measurement, p.value, k, computed);
      P.StepSafe(View(), format, setpoint, measurement, period);
      if t.status != OK {
        return t.status, P.NONE;
      }
      var r := P.Commit(View(), format, error.value, measurement, t);
      CommitIs(View(), format, error.value, measurement, t);
      status, output := r.status, r.output;
      if status == OK {
        P.KeepsBounded(View(), format, r);
        cachedDt, integralStep := period, k.integralStep;
        derivativeGain, filterWeight := k.derivativeGain, k.filterWeight;
        integral, previousError, previousMeasurement := r.context.integral, error.value, measurement;
        derivative, history := t.d, true;
      }
    }
  }

  /** Once the status is not OK it stays. */
  lemma ComputeSticky(c: P.Config, period: int, s: Status)
    ensures var k := P.Compute(c, period, s);
      (s != OK ==> k.status == s) && (k.status == OK ==> s == OK)
  {
  }

  /** Only the coefficients that a step reads matter. */
  lemma SameTerms(ctx: P.Context, f: Format, error: int, measurement: int, p: int, k: P.Coefficients, l: P.Coefficients)
    requires k.status == l.status
    requires k.status == OK ==>
      && k.integralStep == l.integralStep
      && (ctx.config.kd != 0 ==> k.derivativeGain == l.derivativeGain)
      && (ctx.config.filter > 0 ==> k.filterWeight == l.filterWeight)
    ensures var t, u := P.Evaluate(ctx, f, error, measurement, p, k), P.Evaluate(ctx, f, error, measurement, p, l);
      && t.status == u.status && (t.status == OK ==> t == u && k.status == OK)
  {
    if k.status == OK {
      assert P.Integrated(ctx, f, error, k) == P.Integrated(ctx, f, error, l);
      var s := P.Integrated(ctx, f, error, k).status;
      assert P.Derived(ctx, error, measurement, k, s) == P.Derived(ctx, error, measurement, l, s);
    } else {
      hide Checked;
      assert P.Integrated(ctx, f, error, k).status == P.Integrated(ctx, f, error, l).status == k.status;
      var s := k.status;
      assert P.Derived(ctx, error, measurement, k, s).status == P.Derived(ctx, error, measurement, l, s).status == s;
    }
  }

  lemma CommitIs(ctx: P.Context, f: Format, error: int, measurement: int, t: P.Terms)
    requires t.status == OK
    ensures var r := P.Commit(ctx, f, error, measurement, t);
      if r.status == OK then r.context == P.Context(ctx.config, r.context.integral, error, measurement, t.d, true)
      else r.context == ctx && r.output == P.NONE
  {
  }

  lemma SameCoefficients(a: P.Config, b: P.Config, period: int)
    ensures a.ki == b.ki && a.kd == b.kd && a.filter == b.filter ==>
      P.Compute(a, period, OK) == P.Compute(b, period, OK)
  {
  }

  /** A run of calls on the caching controller: it replies as the one without a cache. */
  method Run(controller: Controller, calls: seq<P.Call>) returns (statuses: seq<Status>, outputs: seq<P.Output>)
    requires controller.Valid() && forall k :: 0 <= k < |calls| ==> P.Typed(calls[k], controller.format)
    modifies controller
    ensures controller.Valid() && |statuses| == |outputs| == |calls|
    ensures var replies := P.Answers(old(controller.View()), controller.format, calls);
      && (forall k :: 0 <= k < |calls| ==> statuses[k] == replies[k].status && outputs[k] == replies[k].output)
      && controller.View() == if calls == [] then old(controller.View()) else replies[|calls| - 1].context
  {
    hide P.Answer, P.Bounded;
    statuses, outputs := [], [];
    ghost var replies := P.Answers(controller.View(), controller.format, calls);
    for i := 0 to |calls|
      invariant controller.Valid() && |statuses| == |outputs| == i
      invariant forall k :: 0 <= k < i ==> statuses[k] == replies[k].status && outputs[k] == replies[k].output
      invariant i > 0 ==> controller.View() == replies[i - 1].context
      invariant i == 0 ==> controller.View() == old(controller.View())
    {
      AnswerAt(old(controller.View()), controller.format, calls, i);
      var status, output := One(controller, calls[i]);
      statuses, outputs := statuses + [status], outputs + [output];
    }
  }

  /** A reset controller, its cache filled by whatever ran before, answers every later
      run as another one freshly initialised with its tuning, whose cache is empty. */
  method ResetAsInit(used: Controller, other: Controller, integral: int, calls: seq<P.Call>)
    returns (status: Status, statuses: seq<Status>, outputs: seq<P.Output>,
             otherStatuses: seq<Status>, otherOutputs: seq<P.Output>)
    requires used != other && used.format == other.format && used.Valid()
    requires forall k :: 0 <= k < |calls| ==> P.Typed(calls[k], used.format)
    modifies used, other
    ensures status == P.Reset(old(used.View()), used.format, integral).status
    ensures status != OK ==> unchanged(used) && unchanged(other)
    ensures status == OK ==> |statuses| == |calls| && statuses == otherStatuses && outputs == otherOutputs
    ensures status == OK ==> used.View() == other.View()
  {
    hide P.Answers, P.Compute;
    statuses, outputs, otherStatuses, otherOutputs := [], [], [], [];
    P.ResetIsInit(used.View(), other.View(), used.format, integral, calls);
    status := other.Init(used.config, integral);
    var reset := used.Reset(integral);
    assert reset == status;
    if status == OK {
      statuses, outputs := Run(used, calls);
      otherStatuses, otherOutputs := Run(other, calls);
    }
  }

  /** One call. */
  method One(controller: Controller, call: P.Call) returns (status: Status, output: P.Output)
    requires controller.Valid() && P.Typed(call, controller.format)
    modifies controller
    ensures controller.Valid()
    ensures var r := P.Answer(old(controller.View()), controller.format, call);
      status == r.status && output == r.output && controller.View() == r.context
  {
    hide P.Step, P.Bounded;
    output := P.NONE;
    match call
    case CallInit(config, integral) => status := controller.Init(config, integral);
    case CallRetune(config) => status := controller.Retune(config);
    case CallReset(integral) => status := controller.Reset(integral);
    case CallStep(setpoint, measurement, period) => status, output := controller.Step(setpoint, measurement, period);
  }

  /** Each reply comes from the context the one before left. */
  lemma {:induction false} AnswerAt(ctx: P.Context, f: Format, calls: seq<P.Call>, i: nat)
    requires i < |calls|
    ensures var replies := P.Answers(ctx, f, calls);
      replies[i] == P.Answer(if i == 0 then ctx else replies[i - 1].context, f, calls[i])
    decreases i
  {
    hide P.Answer;
    if i > 0 {
      AnswerAt(P.Answer(ctx, f, calls[0]).context, f, calls[1..], i - 1);
    }
  }
}
