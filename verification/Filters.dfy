/** The designed filters of libs/filters/src/filters_design_impl.h in their fixed
    formats: low-pass, high-pass and band-pass sections whose numerators are derived
    from rounded denominators, and windowed FIR taps. The denominators themselves come
    from floating-point design and are arbitrary here. */
module Filters {
  import opened Fixed

  const F62_ONE := 0x4000_0000_0000_0000

  /** Fraction bits of the sum that a signal does not keep. */
  function Discarded(f: Format): nat
  {
    if f == Q15 then 0x8000_0000_0000 else 0x8000_0000
  }

  /** Division of C, toward zero. */
  function Truncated(n: int, d: nat): int
    requires d > 0
  {
    if n < 0 then -(-n / d) else n / d
  }

  datatype Order = First | Second

  datatype Section = Section(b0: int, b1: int, b2: int, a1: int, a2: int, x1: int, x2: int, y1: int, y2: int)

  /** A rounded denominator 1 + a1/z + a2/z^2. */
  datatype Poles = Poles(a1: int, a2: int)

  /** `lowpass_design`. */
  function Lowpass(order: Order, p: Poles, s: Section): Section
  {
    var sum := ONE + p.a1 + p.a2;
    if order == First then
      var b0 := Truncated(sum, 2);
      s.(a1 := p.a1, a2 := p.a2, b0 := b0, b1 := sum - b0, b2 := 0)
    else
      var b0 := Truncated(sum + 2, 4);
      s.(a1 := p.a1, a2 := p.a2, b0 := b0, b1 := sum - 2 * b0, b2 := b0)
  }

  /** `highpass_design`. */
  function Highpass(order: Order, p: Poles, s: Section): Section
  {
    var sum := ONE - p.a1 + p.a2;
    var b0 := if order == First then Truncated(sum + 1, 2) else Truncated(sum + 2, 4);
    if order == First then s.(a1 := p.a1, a2 := p.a2, b0 := b0, b1 := -b0, b2 := 0)
    else s.(a1 := p.a1, a2 := p.a2, b0 := b0, b1 := -2 * b0, b2 := b0)
  }

  /** `bandpass_section`. */
  function Bandpass(b0: int, p: Poles, s: Section): Section
  {
    s.(a1 := p.a1, a2 := p.a2, b0 := b0, b1 := 0, b2 := -b0)
  }

  /** `seed`. */
  function Seed(s: Section, input: int, output: int): Section
  {
    s.(x1 := input, x2 := input, y1 := output, y2 := output)
  }

  // ---------------------------------------------------------------- one sample

  /** `linears_fixed_mac`: an exact product added to a 128-bit sum. */
  function Mac(sum: Result, a: int, b: int): Result
  {
    if sum.status != OK then sum
    else if -INT128_MAX - 1 <= sum.value + a * b <= INT128_MAX then Result(sum.value + a * b, OK)
    else Result(0, RANGE)
  }

  /** The sum of one section. */
  function Sum(s: Section, x: int): Result
  {
    Mac(Mac(Mac(Mac(Mac(Result(0, OK), s.b0, x), s.b1, s.x1), s.b2, s.x2), -s.a1, s.y1), -s.a2, s.y2)
  }

  /** The signal a section hands on, in F31. */
  function Passed(s: Section, x: int): Result
  {
    var sum := Sum(s, x);
    if sum.status != OK then sum else Checked(RoundDiv(sum.value, ONE))
  }

  /** `linears_accum_to_q15` and `linears_accum_to_q31`: one rounding from the sum. */
  function Export(f: Format, sum: int): Result
  {
    if Abs(sum) > F62_ONE then Result(0, RANGE)
    else
      var raw := RoundDiv(sum, Discarded(f));
      Result(if raw == F62_ONE / Discarded(f) then raw - 1 else raw, OK)
  }

  function Shift(s: Section, x: int, y: int): Section
  {
    s.(x2 := s.x1, x1 := x, y2 := s.y1, y1 := y)
  }

  /** What a cascade makes of a signal: the sections after it and the last sum. */
  datatype Passage = Passage(status: Status, sections: seq<Section>, sum: int)

  function Cascade(sections: seq<Section>, x: int, sum: int): Passage
  {
    if sections == [] then Passage(OK, [], sum)
    else
      var y := Passed(sections[0], x);
      if y.status != OK then Passage(y.status, sections, 0)
      else
        var rest := Cascade(sections[1..], y.value, Sum(sections[0], x).value);
        Passage(rest.status, [Shift(sections[0], x, y.value)] + rest.sections, rest.sum)
  }

  /** The sections after a sample, from the inputs and outputs of each. */
  ghost predicate Shifted(done: seq<Section>, sections: seq<Section>, xs: seq<int>, ys: seq<int>)
  {
    |done| <= |sections| && |done| <= |xs| && |done| <= |ys|
    && forall k :: 0 <= k < |done| ==> done[k] == Shift(sections[k], xs[k], ys[k])
  }

  /** The second loop of `cascade`: every history moves on. */
  method Commit(sections: array<Section>, count: nat, xs: array<int>, ys: array<int>, ghost done: seq<Section>)
    requires |done| == count <= sections.Length && Shifted(done, sections[..], xs[..], ys[..])
    modifies sections
    ensures sections[..count] == done && sections[count..] == old(sections[count..])
  {
    for i := 0 to count
      modifies sections
      invariant forall k :: 0 <= k < i ==> sections[k] == done[k]
      invariant forall k :: i <= k < sections.Length ==> sections[k] == old(sections[k])
    {
      sections[i] := Shift(sections[i], xs[i], ys[i]);
    }
  }

  /** The first loop of `cascade`: every section is evaluated, none is changed. */
  method PassAll(sections: array<Section>, count: nat, x: int, xs: array<int>, ys: array<int>)
    returns (status: Status, sum: int, ghost done: seq<Section>)
    requires count <= sections.Length && xs.Length == ys.Length == count && xs != ys
    modifies xs, ys
    ensures var p := Cascade(sections[..count], x, 0);
      status == p.status && (status == OK ==> sum == p.sum && done == p.sections)
    ensures status == OK ==> |done| == count && Shifted(done, sections[..], xs[..], ys[..])
  {
    hide Passed, Sum, Cascade;
    var signal := x;
    sum, done := 0, [];
    ghost var p := Cascade(sections[..count], signal, sum);
    NothingDone(p);
    for i := 0 to count
      invariant |done| == i && Shifted(done, sections[..], xs[..], ys[..])
      invariant p.status == Cascade(sections[i..count], signal, sum).status
      invariant p.status == OK ==> p == After(done, Cascade(sections[i..count], signal, sum))
    {
      CascadeStep(sections[i..count], signal, sum);
      assert sections[i..count][1..] == sections[i + 1..count];
      xs[i] := signal;
      var y := Passed(sections[i], signal);
      if y.status != OK {
        return y.status, 0, done;
      }
      MoreDone(done, Shift(sections[i], signal, y.value),
               Cascade(sections[i + 1..count], y.value, Sum(sections[i], signal).value));
      sum := Sum(sections[i], signal).value;
      ys[i] := y.value;
      done := done + [Shift(sections[i], signal, y.value)];
      signal := y.value;
    }
    CascadeStep(sections[count..count], signal, sum);
    status := OK;
  }

  function After(done: seq<Section>, p: Passage): Passage
  {
    p.(sections := done + p.sections)
  }

  lemma NothingDone(p: Passage)
    ensures After([], p) == p
  {
    assert [] + p.sections == p.sections;
  }

  lemma MoreDone(done: seq<Section>, s: Section, p: Passage)
    ensures After(done + [s], p) == After(done, p.(sections := [s] + p.sections))
  {
    assert (done + [s]) + p.sections == done + ([s] + p.sections);
  }

  /** `cascade` on sections updated in place: all of them move on or none. */
  method CascadeInPlace(sections: array<Section>, count: nat, input: int, f: Format) returns (r: Result)
    requires count <= sections.Length && count > 0
    modifies sections
    ensures var p := Cascade(old(sections[..count]), Load(f, input), 0);
      var e := Export(f, p.sum);
      && r.status == (if p.status != OK then p.status else e.status)
      && (r.status == OK ==> r == e && sections[..count] == p.sections)
    ensures r.status != OK ==> sections[..] == old(sections[..])
    ensures sections[count..] == old(sections[count..])
  {
    hide Cascade, Export, Shifted;
    var xs, ys := new int[count], new int[count];
    var status, sum;
    ghost var done;
    status, sum, done := PassAll(sections, count, Load(f, input), xs, ys);
    if status != OK {
      return Result(0, status);
    }
    r := Export(f, sum);
    if r.status == OK {
      Commit(sections, count, xs, ys, done);
    }
  }

  lemma {:induction false} CascadeStep(sections: seq<Section>, x: int, sum: int)
    ensures Cascade(sections, x, sum) ==
      if sections == [] then Passage(OK, [], sum)
      else
        var y := Passed(sections[0], x);
        if y.status != OK then Passage(y.status, sections, 0)
        else
          var rest := Cascade(sections[1..], y.value, Sum(sections[0], x).value);
          Passage(rest.status, [Shift(sections[0], x, y.value)] + rest.sections, rest.sum)
  {
  }

  // ---------------------------------------------------------------- DC gain

  /** The taps of a low-pass sum to its denominator, those of the others to zero. */
  lemma GainExact(order: Order, p: Poles, b0: int, s: Section)
    ensures var l := Lowpass(order, p, s); l.b0 + l.b1 + l.b2 == ONE + l.a1 + l.a2
    ensures var h := Highpass(order, p, s); h.b0 + h.b1 + h.b2 == 0
    ensures var b := Bandpass(b0, p, s); b.b0 + b.b1 + b.b2 == 0
  {
  }

  /** At half of the sample rate, where a signal changes its sign with every sample, it is
      the other way round but for rounding: a low-pass has no gain, a high-pass that of its
      denominator, and a band-pass exactly none. A section of order one has two taps, one
      of order two is symmetric. Designing moves no history. */
  lemma NyquistGain(order: Order, p: Poles, b0: int, s: Section)
    ensures var l := Lowpass(order, p, s);
      var gain := l.b0 - l.b1 + l.b2;
      && (if order == First then l.b2 == 0 else l.b2 == l.b0)
      && (ONE + p.a1 + p.a2 >= 0 ==> if order == First then -1 <= gain <= 0 else -1 <= gain <= 2)
    ensures var h := Highpass(order, p, s);
      var excess := h.b0 - h.b1 + h.b2 - (ONE - p.a1 + p.a2);
      && (if order == First then h.b2 == 0 else h.b2 == h.b0)
      && (ONE - p.a1 + p.a2 >= 0 ==> if order == First then 0 <= excess <= 1 else -1 <= excess <= 2)
    ensures var b := Bandpass(b0, p, s); b.b0 == b0 && b.b0 - b.b1 + b.b2 == 0
    ensures forall d :: d in {Lowpass(order, p, s), Highpass(order, p, s), Bandpass(b0, p, s)} ==>
      d.a1 == p.a1 && d.a2 == p.a2 && Section(0, 0, 0, 0, 0, d.x1, d.x2, d.y1, d.y2)
                                      == Section(0, 0, 0, 0, 0, s.x1, s.x2, s.y1, s.y2)
  {
  }

  predicate Stored(s: Section)
  {
    InRange(s.b0) && InRange(s.b1) && InRange(s.b2) && InRange(s.a1) && InRange(s.a2)
  }

  /** Input and output histories of a section at rest. */
  predicate Rests(s: Section, input: int, output: int)
  {
    s.x1 == s.x2 == input && s.y1 == s.y2 == output
  }

  /** The largest product of a coefficient and a level. */
  const PRODUCT := 0x4000_0000_0000_0000_0000_0000

  lemma ProductFits(a: int, b: int)
    requires Abs(a) <= 0x8000_0000_0000_0000 && Abs(b) <= ONE
    ensures Abs(a * b) <= PRODUCT
  {
    AbsProduct(a, b);
    MulMonotone(Abs(a), 0x8000_0000_0000_0000, Abs(b));
  }

  /** It fits a sum of a few of them. */
  lemma MacFits(sum: Result, a: int, b: int, terms: nat)
    requires sum.status == OK && Abs(sum.value) <= terms * PRODUCT && terms < 8
    requires Abs(a) <= 0x8000_0000_0000_0000 && Abs(b) <= ONE
    ensures Mac(sum, a, b) == Result(sum.value + a * b, OK)
    ensures Abs(sum.value + a * b) <= (terms + 1) * PRODUCT
  {
    ProductFits(a, b);
  }

  /** The sum at rest is exactly the gain times the level. */
  lemma RestingSum(s: Section, level: int, output: int)
    requires Stored(s) && Abs(level) <= ONE && Abs(output) <= ONE && Rests(s, level, output)
    ensures Sum(s, level) == Result((s.b0 + s.b1 + s.b2) * level - (s.a1 + s.a2) * output, OK)
  {
    hide Mac;
    var sum := Result(0, OK);
    MacFits(sum, s.b0, level, 0);
    sum := Result(s.b0 * level, OK);
    MacFits(sum, s.b1, level, 1);
    sum := Result(sum.value + s.b1 * level, OK);
    MacFits(sum, s.b2, level, 2);
    sum := Result(sum.value + s.b2 * level, OK);
    MacFits(sum, -s.a1, output, 3);
    sum := Result(sum.value + -s.a1 * output, OK);
    MacFits(sum, -s.a2, output, 4);
    Gather(s, level, output);
  }

  lemma Gather(s: Section, level: int, output: int)
    ensures (s.b0 + s.b1 + s.b2) * level - (s.a1 + s.a2) * output
      == s.b0 * level + s.b1 * level + s.b2 * level + -s.a1 * output + -s.a2 * output
  {
    assert (s.b0 + s.b1 + s.b2) * level == s.b0 * level + s.b1 * level + s.b2 * level;
    assert (s.a1 + s.a2) * output == -(-s.a1 * output) - (-s.a2 * output);
  }

  /** A section with the gain of a low-pass at rest on its level, or with no gain at
      rest on zero, passes on what it rests on. */
  lemma RestingPassed(s: Section, level: int, output: int)
    requires Stored(s) && Abs(level) <= ONE && Rests(s, level, output)
    requires (output == level && s.b0 + s.b1 + s.b2 == ONE + s.a1 + s.a2) || (output == 0 && s.b0 + s.b1 + s.b2 == 0)
    ensures Sum(s, level) == Result(output * ONE, OK) && Passed(s, level) == Result(output, OK)
    ensures Shift(s, level, output) == s
  {
    hide Sum, RoundDiv;
    RestingSum(s, level, output);
    RoundDivExact(output, ONE);
    if output == level {
      assert (ONE + s.a1 + s.a2) * level == ONE * level + (s.a1 + s.a2) * level;
    } else {
      assert 0 * level == 0 && (s.a1 + s.a2) * 0 == 0;
    }
  }

  lemma ExportLevel(f: Format, l: int)
    requires Signal(f, l)
    ensures Export(f, Load(f, l) * ONE) == Result(l, OK)
  {
    hide RoundDiv;
    assert Load(f, l) * ONE == l * Discarded(f);
    RoundDivExact(l, Discarded(f));
  }

  // ---------------------------------------------------------------- settled filters

  datatype Kind = LowPass | HighPass | BandPass

  datatype Filter = Filter(kind: Kind, order: Order, sections: seq<Section>)

  /** The sections a filter uses. */
  function Active(t: Filter): nat
  {
    if t.kind == BandPass && t.order == Second then 2 else 1
  }

  /** A filter of its kind at rest: a low-pass on the level, the others on zero. */
  ghost predicate Settled(t: Filter, level: int)
  {
    && |t.sections| == Active(t)
    && (forall k :: 0 <= k < |t.sections| ==> Stored(t.sections[k]))
    && (match t.kind
        case LowPass =>
          var s := t.sections[0];
          Rests(s, level, level) && s.b0 + s.b1 + s.b2 == ONE + s.a1 + s.a2
        case _ =>
          && Rests(t.sections[0], level, 0)
          && (|t.sections| == 2 ==> Rests(t.sections[1], 0, 0))
          && forall k :: 0 <= k < |t.sections| ==> t.sections[k].b0 + t.sections[k].b1 + t.sections[k].b2 == 0)
  }

  datatype Operation =
    | Step(input: int)
    | Retune(poles: seq<Poles>, gains: seq<int>)

  /** `set` with accepted poles; histories stay. */
  function Retuned(t: Filter, poles: seq<Poles>, gains: seq<int>): Filter
    requires |t.sections| == Active(t) && |poles| == |gains| == Active(t)
  {
    match t.kind
    case LowPass => t.(sections := [Lowpass(t.order, poles[0], t.sections[0])])
    case HighPass => t.(sections := [Highpass(t.order, poles[0], t.sections[0])])
    case BandPass =>
      t.(sections := if Active(t) == 1 then [Bandpass(gains[0], poles[0], t.sections[0])]
         else [Bandpass(gains[0], poles[0], t.sections[0]), Bandpass(gains[1], poles[1], t.sections[1])])
  }

  /** Coefficients that fit their 64 bits, as the design checks or guarantees. */
  predicate Fits(t: Filter, poles: seq<Poles>, gains: seq<int>)
  {
    && |t.sections| == Active(t) && |poles| == |gains| == Active(t)
    && forall k :: 0 <= k < Active(t) ==> Stored(Retuned(t, poles, gains).sections[k])
  }

  /** One step of a settled filter fed its level: the output is exactly the level or
      exactly zero, and the filter is as it was. */
  lemma SettledStep(t: Filter, f: Format, l: int)
    requires Signal(f, l) && Settled(t, Load(f, l))
    ensures var p := Cascade(t.sections, Load(f, l), 0);
      p.status == OK && p.sections == t.sections
      && Export(f, p.sum) == Result(if t.kind == LowPass then l else 0, OK)
  {
    hide Passed, Sum, Export, Cascade, Shift;
    var level, s := Load(f, l), t.sections[0];
    var output := if t.kind == LowPass then level else 0;
    RestingPassed(s, level, output);
    CascadeStep(t.sections, level, 0);
    ExportLevel(f, l);
    ExportLevel(f, 0);
    CascadeStep([], output, Sum(s, level).value);
    if |t.sections| == 2 {
      RestingPassed(t.sections[1], 0, 0);
      CascadeStep(t.sections[1..], 0, Sum(s, level).value);
      CascadeStep([], 0, Sum(t.sections[1], 0).value);
      assert t.sections[1..][1..] == [] && t.sections == [s] + ([t.sections[1]] + []);
    } else {
      assert t.sections[1..] == [] && t.sections == [s] + [];
    }
  }

  lemma SettledRetune(t: Filter, poles: seq<Poles>, gains: seq<int>, level: int)
    requires Settled(t, level) && Fits(t, poles, gains)
    ensures Settled(Retuned(t, poles, gains), level)
  {
    hide Truncated;
    GainExact(t.order, poles[0], gains[0], t.sections[0]);
  }

  ghost predicate LegalRun(t: Filter, f: Format, ops: seq<Operation>, l: int)
    requires |t.sections| == Active(t)
    decreases |ops|
  {
    ops == [] ||
    match ops[0]
    case Step(input) => input == l && LegalRun(t, f, ops[1..], l)
    case Retune(poles, gains) => Fits(t, poles, gains) && LegalRun(Retuned(t, poles, gains), f, ops[1..], l)
  }

  /** The outputs of a run; a failing step is shown by its status and changes nothing. */
  function Outputs(t: Filter, f: Format, ops: seq<Operation>): seq<Result>
    requires |t.sections| == Active(t)
    decreases |ops|
  {
    if ops == [] then []
    else
      match ops[0]
      case Step(input) =>
        var p := Cascade(t.sections, Load(f, input), 0);
        var e := Export(f, p.sum);
        CascadeLength(t.sections, Load(f, input), 0);
        if p.status != OK || e.status != OK then
          [Result(0, if p.status != OK then p.status else e.status)] + Outputs(t, f, ops[1..])
        else [e] + Outputs(t.(sections := p.sections), f, ops[1..])
      case Retune(poles, gains) =>
        if Fits(t, poles, gains) then Outputs(Retuned(t, poles, gains), f, ops[1..]) else Outputs(t, f, ops[1..])
  }

  lemma {:induction false} CascadeLength(sections: seq<Section>, x: int, sum: int)
    ensures Cascade(sections, x, sum).status == OK ==> |Cascade(sections, x, sum).sections| == |sections|
    decreases |sections|
  {
    hide Passed, Sum, Shift;
    if sections != [] && Passed(sections[0], x).status == OK {
      CascadeLength(sections[1..], Passed(sections[0], x).value, Sum(sections[0], x).value);
    }
  }

  /** Settled filters stay settled: through any run of steps at the level and accepted
      retunes a low-pass gives exactly the level, a high-pass or band-pass exactly 0. */
  lemma {:induction false} SettledRun(t: Filter, f: Format, ops: seq<Operation>, l: int)
    requires Signal(f, l) && Settled(t, Load(f, l)) && LegalRun(t, f, ops, l)
    ensures forall k :: 0 <= k < |Outputs(t, f, ops)| ==>
      Outputs(t, f, ops)[k] == Result(if t.kind == LowPass then l else 0, OK)
    decreases |ops|
  {
    hide Cascade, Export, Settled, Stored, Lowpass, Highpass, Bandpass;
    if ops != [] {
      match ops[0]
      case Step(input) =>
        SettledStep(t, f, l);
        SettledRun(t, f, ops[1..], l);
      case Retune(poles, gains) =>
        SettledRetune(t, poles, gains, Load(f, l));
        KindStays(t, poles, gains);
        SettledRun(Retuned(t, poles, gains), f, ops[1..], l);
    }
  }

  lemma KindStays(t: Filter, poles: seq<Poles>, gains: seq<int>)
    requires Fits(t, poles, gains)
    ensures Retuned(t, poles, gains).kind == t.kind && |Retuned(t, poles, gains).sections| == |t.sections|
  {
  }

  /** Where a filter is seeded it is settled. */
  lemma SeedSettles(kind: Kind, order: Order, f: Format, l: int, poles: seq<Poles>, gains: seq<int>, s: Section)
    requires Signal(f, l)
    requires var blank := Filter(kind, order, if kind == BandPass && order == Second then [s, s] else [s]);
      Fits(blank, poles, gains)
    ensures var level := Load(f, l);
      var seeded := if kind == LowPass then [Seed(s, level, level)]
                    else if kind == BandPass && order == Second then [Seed(s, level, 0), Seed(s, 0, 0)]
                    else [Seed(s, level, 0)];
      Settled(Retuned(Filter(kind, order, seeded), poles, gains), level)
  {
    hide Truncated;
    GainExact(order, poles[0], gains[0], s);
    var blank := Filter(kind, order, if kind == BandPass && order == Second then [s, s] else [s]);
    assert Stored(Retuned(blank, poles, gains).sections[0]);
    if Active(blank) == 2 {
      assert Stored(Retuned(blank, poles, gains).sections[1]);
    }
  }

  // ---------------------------------------------------------------- FIR taps

  function Total(c: seq<int>): int
  {
    if c == [] then 0 else Total(c[..|c| - 1]) + c[|c| - 1]
  }

  /** All taps but the centre one are at most this large. */
  ghost predicate Within(c: seq<int>, centre: nat, bound: nat)
  {
    forall k :: 0 <= k < |c| && k != centre ==> Abs(c[k]) <= bound
  }

  /** `fir_write`: the centre tap is what the others leave to the wanted gain, so the
      taps sum to it exactly, for every odd length and whatever the others round to. With
      the others up to a bound it stays within 64 bits while that many bounds do. */
  method FirWrite(coefficients: array<int>, taps: nat, value: nat -> int, dc: int, ghost bound: nat)
    requires taps % 2 == 1 && taps == coefficients.Length
    modifies coefficients
    ensures forall k :: 0 <= k < taps && k != taps / 2 ==> coefficients[k] == value(k)
    ensures Total(coefficients[..]) == dc
    ensures Within(coefficients[..], taps / 2, bound) && bound * taps + Abs(dc) <= INT64_MAX ==>
      InRange(coefficients[taps / 2])
  {
    var half, others := taps / 2, 0;
    for i := 0 to taps
      invariant forall k :: 0 <= k < i && k != half ==> coefficients[k] == value(k)
      invariant others == Total(coefficients[..i]) - if i > half then coefficients[half] else 0
    {
      ghost var before := coefficients[..i];
      if i != half {
        coefficients[i] := value(i);
        others := others + coefficients[i];
      }
      assert coefficients[..i + 1][..i] == before;
    }
    ghost var was := coefficients[..];
    assert coefficients[..taps] == was;
    coefficients[half] := dc - others;
    TotalChange(was, half, dc - others);
    assert coefficients[..] == was[half := dc - others];
    hide Within, Total, InRange;
    CentreFits(coefficients[..], half, bound);
  }

  lemma {:induction false} OthersBounded(c: seq<int>, centre: nat, bound: nat)
    ensures Within(c, centre, bound) ==> Abs(Total(c) - if centre < |c| then c[centre] else 0) <= bound * |c|
    decreases |c|
  {
    if c != [] {
      var n := |c| - 1;
      OthersBounded(c[..n], centre, bound);
      assert bound * |c| == bound * n + bound;
      assert Within(c, centre, bound) ==> Within(c[..n], centre, bound);
    }
  }

  lemma {:induction false} CentreFits(c: seq<int>, centre: nat, bound: nat)
    requires centre < |c|
    ensures Within(c, centre, bound) && bound * |c| + Abs(Total(c)) <= INT64_MAX ==> InRange(c[centre])
  {
    hide Within;
    OthersBounded(c, centre, bound);
  }

  lemma {:induction false} TotalChange(c: seq<int>, i: nat, x: int)
    requires i < |c|
    ensures Total(c[i := x]) == Total(c) - c[i] + x
    decreases |c|
  {
    var d, n := c[i := x], |c| - 1;
    if i == n {
      assert d[..n] == c[..n];
    } else {
      TotalChange(c[..n], i, x);
      assert d[..n] == c[..n][i := x];
    }
  }
}
