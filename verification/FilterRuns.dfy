/** The difference equation of a cascade over runs of samples: what every section gives
    is said by the sequences of its inputs and outputs, not by the history it stores. */
module FilterRuns {
  import opened Fixed
  import opened Filters

  // ---------------------------------------------------------------- the equation

  /** A signal with the two samples before it. */
  ghost function From(older: int, newer: int, signal: seq<int>): seq<int>
  {
    [older, newer] + signal
  }

  /** b0 x[n] + b1 x[n-1] + b2 x[n-2] - a1 y[n-1] - a2 y[n-2], without rounding. What came
      before the run is what the section started with. */
  ghost function Exact(s: Section, xs: seq<int>, ys: seq<int>, n: nat): int
    requires n < |xs| && n <= |ys|
  {
    var x, y := From(s.x2, s.x1, xs), From(s.y2, s.y1, ys);
    s.b0 * x[n + 2] + s.b1 * x[n + 1] + s.b2 * x[n] - s.a1 * y[n + 1] - s.a2 * y[n]
  }

  /** Every output of the section is its equation, rounded once. */
  ghost predicate Solves(s: Section, xs: seq<int>, ys: seq<int>)
  {
    |xs| == |ys| && forall n :: 0 <= n < |xs| ==> ys[n] == RoundDiv(Exact(s, xs, ys, n), ONE)
  }

  /** The narrow output comes from the exact sum by one rounding as well; plus one
      becomes the largest signal. */
  ghost predicate Exports(f: Format, sum: int, output: int)
  {
    var raw, top := RoundDiv(sum, Discarded(f)), F62_ONE / Discarded(f) - 1;
    Abs(sum) <= F62_ONE && output == if raw > top then top else raw
  }

  /** The history that a section holds after a run. */
  ghost function Moved(s: Section, xs: seq<int>, ys: seq<int>): Section
    requires |xs| == |ys|
  {
    var x, y, n := From(s.x2, s.x1, xs), From(s.y2, s.y1, ys), |xs|;
    s.(x2 := x[n], x1 := x[n + 1], y2 := y[n], y1 := y[n + 1])
  }

  /** The signals of a run: the inputs of the first section, then the outputs of each,
      which are the inputs of the next. */
  ghost predicate Signals(start: seq<Section>, w: seq<seq<int>>)
  {
    |w| == |start| + 1 && forall k :: 0 <= k < |start| ==> Solves(start[k], w[k], w[k + 1])
  }

  // ---------------------------------------------------------------- one sample

  /** The input of a cascade and what each section makes of it. */
  ghost function Along(sections: seq<Section>, x: int): (r: seq<int>)
    ensures |r| == |sections| + 1 && r[0] == x
    decreases |sections|
  {
    if sections == [] then [x] else [x] + Along(sections[1..], Passed(sections[0], x).value)
  }

  lemma SumIs(s: Section, x: int)
    ensures Sum(s, x).status == OK ==>
      Sum(s, x).value == s.b0 * x + s.b1 * s.x1 + s.b2 * s.x2 - s.a1 * s.y1 - s.a2 * s.y2
  {
    MacIs(Result(0, OK), s.b0, x);
  }

  /** A product is added exactly, or refused where the sum needs more than 128 bits. */
  lemma MacIs(sum: Result, a: int, b: int)
    ensures Mac(sum, a, b).status == OK ==> sum.status == OK && Mac(sum, a, b).value == sum.value + a * b
    ensures sum.status == OK ==>
      (Mac(sum, a, b).status == OK <==>
       -0x8000_0000_0000_0000_0000_0000_0000_0000 <= sum.value + a * b < 0x8000_0000_0000_0000_0000_0000_0000_0000)
  {
  }

  /** One sample: every section solves its equation for it and its history moves on. */
  lemma {:induction false} CascadeAlong(sections: seq<Section>, x: int, sum: int)
    requires Cascade(sections, x, sum).status == OK
    ensures var p, w, n := Cascade(sections, x, sum), Along(sections, x), |sections|;
      && |p.sections| == n
      && (forall k :: 0 <= k < n ==>
            && p.sections[k] == Shift(sections[k], w[k], w[k + 1])
            && w[k + 1] == RoundDiv(Exact(sections[k], [w[k]], [], 0), ONE))
      && p.sum == if n == 0 then sum else Exact(sections[n - 1], [w[n - 1]], [], 0)
    decreases |sections|
  {
    hide Sum, RoundDiv, Exact, Shift;
    if sections != [] {
      var s := sections[0];
      SumIs(s, x);
      ExactNow(s, x);
      CascadeAlong(sections[1..], Passed(s, x).value, Sum(s, x).value);
    }
  }

  lemma ExactNow(s: Section, x: int)
    ensures Exact(s, [x], [], 0) == s.b0 * x + s.b1 * s.x1 + s.b2 * s.x2 - s.a1 * s.y1 - s.a2 * s.y2
  {
  }

  /** Two samples back is all that a section needs to remember. */
  lemma {:induction false} ExactLater(s: Section, xs: seq<int>, ys: seq<int>, x: int, y: int)
    requires |xs| == |ys|
    ensures Exact(Moved(s, xs, ys), [x], [], 0) == Exact(s, xs + [x], ys + [y], |xs|)
    ensures Shift(Moved(s, xs, ys), x, y) == Moved(s, xs + [x], ys + [y])
  {
    assert From(s.x2, s.x1, xs + [x]) == From(s.x2, s.x1, xs) + [x];
    assert From(s.y2, s.y1, ys + [y]) == From(s.y2, s.y1, ys) + [y];
    ExactNow(Moved(s, xs, ys), x);
  }

  lemma {:induction false} ExactEarlier(s: Section, xs: seq<int>, ys: seq<int>, x: int, y: int, n: nat)
    requires n < |xs| == |ys|
    ensures Exact(s, xs + [x], ys + [y], n) == Exact(s, xs, ys, n)
  {
    assert From(s.x2, s.x1, xs + [x]) == From(s.x2, s.x1, xs) + [x];
    assert From(s.y2, s.y1, ys + [y]) == From(s.y2, s.y1, ys) + [y];
  }

  lemma {:induction false} SolvesMore(s: Section, xs: seq<int>, ys: seq<int>, x: int, y: int)
    requires Solves(s, xs, ys) && y == RoundDiv(Exact(Moved(s, xs, ys), [x], [], 0), ONE)
    ensures Solves(s, xs + [x], ys + [y])
  {
    hide Exact, RoundDiv, Moved;
    ExactLater(s, xs, ys, x, y);
    forall n | 0 <= n < |xs| + 1
      ensures (ys + [y])[n] == RoundDiv(Exact(s, xs + [x], ys + [y], n), ONE)
    {
      if n < |xs| {
        ExactEarlier(s, xs, ys, x, y, n);
      }
    }
  }

  // ---------------------------------------------------------------- whole runs

  /** The loaded inputs of the steps that succeeded. */
  function Accepted(f: Format, inputs: seq<int>, results: seq<Result>): seq<int>
    requires |inputs| == |results|
  {
    if inputs == [] then []
    else
      var n := |inputs| - 1;
      Accepted(f, inputs[..n], results[..n]) + if results[n].status == OK then [Load(f, inputs[n])] else []
  }

  /** Their outputs. */
  function Delivered(results: seq<Result>): seq<int>
  {
    if results == [] then []
    else
      var n := |results| - 1;
      Delivered(results[..n]) + if results[n].status == OK then [results[n].value] else []
  }

  /** Every signal one sample longer. */
  ghost function Longer(w: seq<seq<int>>, now: seq<int>): seq<seq<int>>
    requires |w| == |now|
  {
    seq(|w|, k requires 0 <= k < |w| => w[k] + [now[k]])
  }

  /** What a run has done to the sections, and what it gave. */
  ghost predicate Ran(start: seq<Section>, f: Format, w: seq<seq<int>>, sections: seq<Section>, outputs: seq<int>)
    requires start != []
  {
    && Signals(start, w) && |sections| == |start|
    && (forall k :: 0 <= k < |start| ==> sections[k] == Moved(start[k], w[k], w[k + 1]))
    && |outputs| == |w[|start|]| == |w[|start| - 1]|
    && forall n :: 0 <= n < |outputs| ==>
         Exports(f, Exact(start[|start| - 1], w[|start| - 1], w[|start|], n), outputs[n])
  }

  lemma ExportIs(f: Format, sum: int)
    ensures Export(f, sum).status == OK ==> Exports(f, sum, Export(f, sum).value)
  {
    hide RoundDiv;
    var top := F62_ONE / Discarded(f);
    if Abs(sum) <= F62_ONE {
      assert top * Discarded(f) == F62_ONE;
      RoundDivMonotone(sum, F62_ONE, Discarded(f));
      RoundDivExact(top, Discarded(f));
    }
  }

  lemma NothingRan(start: seq<Section>, f: Format)
    requires start != []
    ensures Ran(start, f, seq(|start| + 1, _ => []), start, [])
  {
  }

  /** A sample that goes through is one more of every signal. */
  lemma {:induction false} RanMore(start: seq<Section>, f: Format, w: seq<seq<int>>, sections: seq<Section>,
                                   outputs: seq<int>, x: int)
    requires start != [] && Ran(start, f, w, sections, outputs)
    requires Cascade(sections, x, 0).status == OK && Export(f, Cascade(sections, x, 0).sum).status == OK
    ensures var p := Cascade(sections, x, 0);
      Ran(start, f, Longer(w, Along(sections, x)), p.sections, outputs + [Export(f, p.sum).value])
  {
    hide Cascade, Export, Exact, Moved, RoundDiv, Shift, Solves, Exports;
    var p, now, n := Cascade(sections, x, 0), Along(sections, x), |start|;
    var v, e := Longer(w, now), Export(f, p.sum);
    CascadeAlong(sections, x, 0);
    SameLengths(start, w);
    forall k | 0 <= k < n
      ensures Solves(start[k], v[k], v[k + 1]) && |v[k]| == |v[k + 1]|
      ensures p.sections[k] == Moved(start[k], v[k], v[k + 1])
    {
      SolvesMore(start[k], w[k], w[k + 1], now[k], now[k + 1]);
      ExactLater(start[k], w[k], w[k + 1], now[k], now[k + 1]);
    }
    forall i | 0 <= i < |outputs| + 1
      ensures Exports(f, Exact(start[n - 1], v[n - 1], v[n], i), (outputs + [e.value])[i])
    {
      if i < |outputs| {
        ExactEarlier(start[n - 1], w[n - 1], w[n], now[n - 1], now[n], i);
      } else {
        ExactLater(start[n - 1], w[n - 1], w[n], now[n - 1], now[n]);
        ExportIs(f, p.sum);
      }
    }
  }

  lemma {:induction false} SameLengths(start: seq<Section>, w: seq<seq<int>>)
    requires Signals(start, w)
    ensures forall k :: 0 <= k < |start| ==> |w[k]| == |w[k + 1]|
  {
    forall k | 0 <= k < |start|
      ensures |w[k]| == |w[k + 1]|
    {
      assert Solves(start[k], w[k], w[k + 1]);
    }
  }

  /** A run of samples through a cascade updated in place. Whatever samples are refused,
      every section gives its difference equation over the accepted ones, with its
      coefficients and the history it started with; the section behind it is fed exactly
      that, and the output is the last equation rounded to the narrow format. */
  method RunInPlace(sections: array<Section>, count: nat, inputs: seq<int>, f: Format)
    returns (results: seq<Result>, ghost w: seq<seq<int>>)
    requires 0 < count <= sections.Length
    modifies sections
    ensures |results| == |inputs|
    ensures Signals(old(sections[..count]), w) && w[0] == Accepted(f, inputs, results)
    ensures Ran(old(sections[..count]), f, w, sections[..count], Delivered(results))
    ensures sections[count..] == old(sections[count..])
  {
    hide Ran, Cascade, Export;
    ghost var start := sections[..count];
    results, w := [], seq(count + 1, _ => []);
    NothingRan(start, f);
    for i := 0 to |inputs|
      invariant |results| == i
      invariant Ran(start, f, w, sections[..count], Delivered(results))
      invariant Signals(start, w) && w[0] == Accepted(f, inputs[..i], results)
      invariant sections[count..] == old(sections[count..])
    {
      ghost var was := sections[..count];
      var r := CascadeInPlace(sections, count, inputs[i], f);
      assert inputs[..i + 1][..i] == inputs[..i] && (results + [r])[..i] == results;
      if r.status == OK {
        RanMore(start, f, w, was, Delivered(results), Load(f, inputs[i]));
        assert Delivered(results + [r]) == Delivered(results) + [r.value];
        w := Longer(w, Along(was, Load(f, inputs[i])));
        RanSignals(start, f, w, sections[..count], Delivered(results + [r]));
      } else {
        assert sections[..count] == was && Delivered(results) + [] == Delivered(results);
      }
      results := results + [r];
    }
    assert inputs[..|inputs|] == inputs;
  }

  lemma RanSignals(start: seq<Section>, f: Format, w: seq<seq<int>>, sections: seq<Section>, outputs: seq<int>)
    requires start != [] && Ran(start, f, w, sections, outputs)
    ensures Signals(start, w)
  {
  }

  lemma OneSection(s: Section, x: int, sum: int, y: int)
    requires Sum(s, x) == Result(sum, OK) && Checked(RoundDiv(sum, ONE)) == Result(y, OK)
    ensures Cascade([s], x, 0) == Passage(OK, [Shift(s, x, y)], sum)
  {
    hide Sum, RoundDiv;
    CascadeStep([s], x, 0);
    CascadeStep([], y, sum);
  }

  /** The section of these taps with a given history. */
  function Taps(x1: int, x2: int, y1: int, y2: int): Section
  {
    Section(0x2000_0000, 0x4000_0000, 0x2000_0000, 0, 0, x1, x2, y1, y2)
  }

  lemma MacSmall(sum: int, a: int, b: int)
    requires Abs(sum + a * b) <= INT128_MAX
    ensures Mac(Result(sum, OK), a, b) == Result(sum + a * b, OK)
  {
  }

  lemma TapSum(x: int, x1: int, x2: int, y1: int, y2: int)
    requires Abs(x) <= ONE && Abs(x1) <= ONE && Abs(x2) <= ONE
    ensures Sum(Taps(x1, x2, y1, y2), x) == Result(0x2000_0000 * x + 0x4000_0000 * x1 + 0x2000_0000 * x2, OK)
  {
    hide Mac;
    var sum := 0x2000_0000 * x + 0x4000_0000 * x1 + 0x2000_0000 * x2;
    MacSmall(0, 0x2000_0000, x);
    MacSmall(0x2000_0000 * x, 0x4000_0000, x1);
    MacSmall(0x2000_0000 * x + 0x4000_0000 * x1, 0x2000_0000, x2);
    MacSmall(sum, 0, y1);
    MacSmall(sum, 0, y2);
  }

  /** Taps of a quarter, a half and a quarter without feedback: a single sample comes out
      as a quarter, a half and a quarter of it. */
  lemma ThreeTaps()
    ensures var p := Cascade([Taps(0, 0, 0, 0)], 0x4000_0000, 0);
      var q := Cascade(p.sections, 0, 0);
      var r := Cascade(q.sections, 0, 0);
      && Export(Q31, p.sum) == Result(0x1000_0000, OK) && Export(Q31, q.sum) == Result(0x2000_0000, OK)
      && Export(Q31, r.sum) == Result(0x1000_0000, OK)
  {
    hide Cascade, Sum, RoundDiv, Discarded;
    var l := 0x4000_0000;
    TapSum(l, 0, 0, 0, 0);
    TapSum(0, l, 0, l / 4, 0);
    TapSum(0, 0, l, l / 2, l / 4);
    RoundDivExact(l / 4, ONE);
    RoundDivExact(l / 2, ONE);
    OneSection(Taps(0, 0, 0, 0), l, ONE * (l / 4), l / 4);
    OneSection(Taps(l, 0, l / 4, 0), 0, ONE * (l / 2), l / 2);
    OneSection(Taps(0, l, l / 2, l / 4), 0, ONE * (l / 4), l / 4);
    ExportLevel(Q31, l / 4);
    ExportLevel(Q31, l / 2);
  }
}
