/**
 * Geometric cooling: the outer loop of the engine multiplies the
 * temperature by alpha for as long as it stays above the floor T_min.
 *
 * The loop ends exactly when some number of cooling steps takes the
 * temperature to or below the floor (`ReachesFloor`); `StepsToFloor` is
 * the least such number, and the loop performs exactly that many steps.
 */
module Cooling {

  /** One geometric cooling step: the temperature multiplied by alpha. */
  function Cool(T: real, alpha: real): (r: real)
    ensures 0.0 < alpha < 1.0 && T > 0.0 ==> 0.0 < r < T
  {
    T * alpha
  }

  /** The temperature after k cooling steps from T. */
  function CooledTimes(T: real, alpha: real, k: nat): real
    decreases k
  {
    if k == 0 then T else CooledTimes(Cool(T, alpha), alpha, k - 1)
  }

  /** Some number of cooling steps from T takes the temperature to or below the floor. */
  ghost predicate ReachesFloor(T: real, alpha: real, Tmin: real) {
    exists k: nat :: CooledTimes(T, alpha, k) <= Tmin
  }

  /**
   * The least number of cooling steps from T that reaches the floor,
   * given that k steps do.
   */
  ghost function LeastSteps(T: real, alpha: real, Tmin: real, k: nat): (m: nat)
    requires CooledTimes(T, alpha, k) <= Tmin
    ensures m <= k && CooledTimes(T, alpha, m) <= Tmin
    ensures forall j: nat :: j < m ==> CooledTimes(T, alpha, j) > Tmin
    decreases k
  {
    if T <= Tmin then 0
    else
      var m := 1 + LeastSteps(Cool(T, alpha), alpha, Tmin, k - 1);
      assert forall j: nat :: 0 < j < m ==> CooledTimes(T, alpha, j) == CooledTimes(Cool(T, alpha), alpha, j - 1);
      m
  }

  /** The number of cooling steps the outer loop performs from T: the least one reaching the floor. */
  ghost function StepsToFloor(T: real, alpha: real, Tmin: real): (m: nat)
    requires ReachesFloor(T, alpha, Tmin)
    ensures CooledTimes(T, alpha, m) <= Tmin
    ensures forall j: nat :: j < m ==> CooledTimes(T, alpha, j) > Tmin
  {
    var k: nat :| CooledTimes(T, alpha, k) <= Tmin;
    LeastSteps(T, alpha, Tmin, k)
  }

  /**
   * Cooling once from above the floor leaves a temperature that still
   * reaches the floor, in exactly one step fewer.
   */
  lemma CoolingShift(T: real, alpha: real, Tmin: real)
    requires ReachesFloor(T, alpha, Tmin) && T > Tmin
    ensures ReachesFloor(Cool(T, alpha), alpha, Tmin)
    ensures StepsToFloor(T, alpha, Tmin) >= 1
    ensures StepsToFloor(Cool(T, alpha), alpha, Tmin) == StepsToFloor(T, alpha, Tmin) - 1
  {
    var m := StepsToFloor(T, alpha, Tmin);
    assert CooledTimes(T, alpha, 0) == T;
    assert m != 0;
    var T' := Cool(T, alpha);
    assert CooledTimes(T', alpha, m - 1) <= Tmin;
    var m' := StepsToFloor(T', alpha, Tmin);
    assert CooledTimes(T, alpha, m' + 1) == CooledTimes(T', alpha, m');
  }

  lemma MulPositive(a: real, b: real)
    requires a > 0.0 && b > 0.0
    ensures a * b > 0.0
  {
  }

  lemma DivLess(x: real, y: real, c: real)
    requires c > 0.0 && x < y
    ensures x / c < y / c
  {
  }

  lemma DivShift(x: real, c: real)
    requires c > 0.0
    ensures (x - c) / c == x / c - 1.0
  {
    var q := x / c;
    assert (q - 1.0) * c == x - c;
    var d := (x - c) / c - (q - 1.0);
    assert d * c == 0.0;
    if d > 0.0 {
      MulPositive(d, c);
    } else if d < 0.0 {
      MulPositive(-d, c);
    }
  }

  /**
   * With alpha < 1 and a positive floor, a cooling step from above the
   * floor lowers the temperature by more than (1 - alpha) * Tmin, so the
   * integer measure floor(T / ((1 - alpha) * Tmin)) stays non-negative and
   * strictly drops.
   */
  lemma CoolingStep(T: real, alpha: real, Tmin: real)
    requires alpha < 1.0 && Tmin > 0.0
    requires T > Tmin
    ensures Cool(T, alpha) < T
    ensures 0 <= (T / ((1.0 - alpha) * Tmin)).Floor
    ensures (Cool(T, alpha) / ((1.0 - alpha) * Tmin)).Floor < (T / ((1.0 - alpha) * Tmin)).Floor
  {
    var c := (1.0 - alpha) * Tmin;
    MulPositive(1.0 - alpha, Tmin);
    MulPositive(1.0 - alpha, T - Tmin);
    assert T * alpha < T - c;
    DivLess(T * alpha, T - c, c);
    DivShift(T, c);
    DivLess(0.0, T, c);
  }

  /** With alpha < 1 and a positive floor, cooling reaches the floor from every temperature. */
  lemma {:induction false} PositiveFloorReached(T: real, alpha: real, Tmin: real)
    requires alpha < 1.0 && Tmin > 0.0
    ensures ReachesFloor(T, alpha, Tmin)
    decreases if T > Tmin then (T / ((1.0 - alpha) * Tmin)).Floor + 1 else 0
  {
    if T <= Tmin {
      assert CooledTimes(T, alpha, 0) <= Tmin;
    } else {
      CoolingStep(T, alpha, Tmin);
      PositiveFloorReached(Cool(T, alpha), alpha, Tmin);
      var k: nat :| CooledTimes(Cool(T, alpha), alpha, k) <= Tmin;
      assert CooledTimes(T, alpha, k + 1) <= Tmin;
    }
  }

  /** Step k of a cooling schedule: the temperature was above the floor, so the loop cooled it. */
  ghost predicate CooledAt(temps: seq<real>, k: nat, alpha: real, Tmin: real)
    requires k + 1 < |temps|
  {
    temps[k] > Tmin && temps[k + 1] == Cool(temps[k], alpha)
  }

  /** temps is a geometric cooling schedule from T0: every step is a cooling step. */
  ghost predicate CoolingSchedule(temps: seq<real>, T0: real, alpha: real, Tmin: real) {
    && |temps| >= 1 && temps[0] == T0
    && (forall k: nat :: k + 1 < |temps| ==> CooledAt(temps, k, alpha, Tmin))
  }

  /** Cooling once more from above the floor extends the schedule. */
  lemma CoolingExtends(temps: seq<real>, T0: real, alpha: real, Tmin: real)
    requires CoolingSchedule(temps, T0, alpha, Tmin)
    requires temps[|temps| - 1] > Tmin
    ensures CoolingSchedule(temps + [Cool(temps[|temps| - 1], alpha)], T0, alpha, Tmin)
  {
    var temps' := temps + [Cool(temps[|temps| - 1], alpha)];
    forall k: nat | k + 1 < |temps'|
      ensures CooledAt(temps', k, alpha, Tmin)
    {
      assert temps'[k] == temps[k];
      if k + 1 < |temps| {
        assert CooledAt(temps, k, alpha, Tmin);
        assert temps'[k + 1] == temps[k + 1];
      }
    }
  }
}
