/** The exponential moving average of libs/filters/src/filters_work.c: one exact
    128-bit product sum, rounded once. */
module Ema {
  import opened Fixed

  const Q31_MAX := 0x7fff_ffff

  predicate Weight(alpha: int)
  {
    0 <= alpha <= Q31_MAX
  }

  /** The new state, before any check. */
  function Next(state: int, alpha: int, input: int): int
  {
    RoundDiv((ONE - alpha) * state + alpha * input, ONE)
  }

  predicate Between(x: int, a: int, b: int)
  {
    a <= x <= b || b <= x <= a
  }

  lemma BlendBetween(state: int, alpha: int, input: int)
    requires Weight(alpha)
    ensures Between((ONE - alpha) * state + alpha * input, state * ONE, input * ONE)
  {
    var e := input - state;
    assert (ONE - alpha) * state + alpha * input == state * ONE + alpha * e;
    if e >= 0 {
      MulMonotone(alpha, ONE, e);
      MulMonotone(0, alpha, e);
    } else {
      MulMonotone(alpha, ONE, -e);
      MulMonotone(0, alpha, -e);
      assert alpha * -e == -(alpha * e) && ONE * -e == -(ONE * e);
    }
  }

  /** Every update lands between the old state and the input. */
  lemma NextBetween(state: int, alpha: int, input: int)
    requires Weight(alpha)
    ensures Between(Next(state, alpha, input), state, input)
  {
    hide RoundDiv;
    BlendBetween(state, alpha, input);
    var sum := (ONE - alpha) * state + alpha * input;
    RoundDivExact(state, ONE);
    RoundDivExact(input, ONE);
    if state <= input {
      RoundDivMonotone(state * ONE, sum, ONE);
      RoundDivMonotone(sum, input * ONE, ONE);
    } else {
      RoundDivMonotone(input * ONE, sum, ONE);
      RoundDivMonotone(sum, state * ONE, ONE);
    }
  }

  /** `filters_ema_work_step` on the state it is given a place of. */
  class History {
    var value: int

    constructor (value: int)
      ensures this.value == value
    {
      this.value := value;
    }

    /** It fails only for a negative weight: neither the sum nor its rounding overflows. */
    method WorkStep(alpha: int, input: int) returns (status: Status)
      requires InRange(value) && InRange(input) && alpha <= Q31_MAX
      modifies this
      ensures status == if alpha < 0 then DOMAIN else OK
      ensures value == if status == OK then Next(old(value), alpha, input) else old(value)
      ensures status == OK ==> InRange(value) && Between(value, old(value), input)
    {
      hide RoundDiv;
      if alpha < 0 {
        return DOMAIN;
      }
      BlendBetween(value, alpha, input);
      BlendBetween(value, alpha, 0);
      NextBetween(value, alpha, input);
      var sum := 0;
      sum := sum + (ONE - alpha) * value;
      if sum > INT128_MAX || sum < -INT128_MAX - 1 {
        return RANGE;
      }
      sum := sum + alpha * input;
      if sum > INT128_MAX || sum < -INT128_MAX - 1 {
        return RANGE;
      }
      var result := Checked(RoundDiv(sum, ONE));
      if result.status != OK {
        return result.status;
      }
      value := result.value;
      status := OK;
    }
  }

  // ---------------------------------------------------------------- runs

  datatype Sample = Sample(alpha: int, input: int)

  function Run(state: int, samples: seq<Sample>): int
    decreases |samples|
  {
    if samples == [] then state else Run(Next(state, samples[0].alpha, samples[0].input), samples[1..])
  }

  /** No run leaves the hull of its first state and its inputs. */
  lemma {:induction false} RunInHull(state: int, samples: seq<Sample>, lo: int, hi: int)
    requires lo <= state <= hi
    requires forall k :: 0 <= k < |samples| ==> Weight(samples[k].alpha) && lo <= samples[k].input <= hi
    ensures lo <= Run(state, samples) <= hi
    decreases |samples|
  {
    hide Next;
    if samples != [] {
      NextBetween(state, samples[0].alpha, samples[0].input);
      RunInHull(Next(state, samples[0].alpha, samples[0].input), samples[1..], lo, hi);
    }
  }

  // ---------------------------------------------------------------- the dead band

  /** Where a held input no longer moves the state: the increment rounds to nothing. A
      tie does so only when it points toward zero. */
  predicate Dead(state: int, alpha: int, input: int)
  {
    var doubled := 2 * (alpha * Abs(input - state));
    doubled < ONE || (doubled == ONE && (if input > state then state < 0 else state > 0))
  }

  lemma RoundsTo(n: nat, k: int, r: int)
    requires n == k * ONE + r
    ensures RoundMagnitude(n, ONE) == k <==> -ONE <= 2 * r < ONE
  {
    hide RoundMagnitude;
    RoundMagnitudeNearest(n, ONE);
    if -ONE <= 2 * r < ONE {
      RoundMagnitudeUnique(n, ONE, k);
    }
  }

  /** The state stays exactly in the dead band. */
  lemma DeadBand(state: int, alpha: int, input: int)
    requires Weight(alpha)
    ensures Next(state, alpha, input) == state <==> Dead(state, alpha, input)
  {
    hide RoundDiv;
    var e := input - state;
    var r := alpha * e;
    BlendIs(state, alpha, input);
    AbsScaled(alpha, e);
    RoundStays(state, r);
  }

  lemma BlendIs(state: int, alpha: int, input: int)
    ensures (ONE - alpha) * state + alpha * input == state * ONE + alpha * (input - state)
  {
    assert (ONE - alpha) * state == ONE * state - alpha * state;
    assert alpha * (input - state) == alpha * input - alpha * state;
  }

  /** The product of a weight and an error, by sign and magnitude. */
  lemma AbsScaled(alpha: nat, e: int)
    ensures alpha * Abs(e) == Abs(alpha * e)
    ensures (alpha * e > 0 ==> e > 0) && (alpha * e < 0 ==> e < 0)
  {
    assert alpha * -e == -(alpha * e);
    if e >= 0 {
      MulMonotone(0, alpha, e);
    } else {
      MulMonotone(0, alpha, -e);
    }
  }

  lemma RoundStays(state: int, r: int)
    ensures RoundDiv(state * ONE + r, ONE) == state <==>
      2 * Abs(r) < ONE || (2 * r == ONE && state < 0) || (2 * r == -ONE && state > 0)
  {
    hide RoundMagnitude;
    var sum := state * ONE + r;
    if sum >= 0 {
      RoundsTo(sum, state, r);
    } else {
      RoundsTo(-sum, -state, -r);
    }
  }

  /** Under a held input the error never grows and never changes sign, and it shrinks
      until the dead band is reached. */
  lemma ErrorShrinks(state: int, alpha: int, input: int)
    requires Weight(alpha)
    ensures var e, after := input - state, input - Next(state, alpha, input);
      && (e >= 0 ==> 0 <= after <= e) && (e <= 0 ==> e <= after <= 0)
      && (Abs(after) == Abs(e) <==> Dead(state, alpha, input))
  {
    hide Next, Dead;
    NextBetween(state, alpha, input);
    DeadBand(state, alpha, input);
  }

  function Held(state: int, alpha: int, input: int, n: nat): int
    decreases n
  {
    if n == 0 then state else Held(Next(state, alpha, input), alpha, input, n - 1)
  }

  /** After at most as many steps as the first error has units the state is in the dead
      band, where it stays. */
  lemma {:induction false} Settles(state: int, alpha: int, input: int, n: nat)
    requires Weight(alpha) && n >= Abs(input - state)
    ensures Dead(Held(state, alpha, input, n), alpha, input)
    decreases n
  {
    hide Next;
    if n == 0 {
      assert input == state;
    } else {
      ErrorShrinks(state, alpha, input);
      if Dead(state, alpha, input) {
        DeadBand(state, alpha, input);
        StaysDead(state, alpha, input, n);
      } else {
        Settles(Next(state, alpha, input), alpha, input, n - 1);
      }
    }
  }

  lemma {:induction false} StaysDead(state: int, alpha: int, input: int, n: nat)
    requires Weight(alpha) && Dead(state, alpha, input)
    ensures Held(state, alpha, input, n) == state
    decreases n
  {
    hide Next, Dead;
    if n > 0 {
      DeadBand(state, alpha, input);
      StaysDead(state, alpha, input, n - 1);
    }
  }
}
