/**
 The rate-limited command rule shared by the aileron, rudder and elevator
 controls of the roll test, and the per-step increment it is driven with.
 Commands are normalised deflections; arithmetic is exact (`real`).
 */
module RateLimit {

  datatype Option<T> = None | Some(value: T)

  function Abs(x: real): real
  {
    if x < 0.0 then -x else x
  }

  function Max0(x: real): real
  {
    if x < 0.0 then 0.0 else x
  }

  /** `x` lies between `a` and `b`, both included, whichever is larger. */
  predicate Between(a: real, x: real, b: real)
  {
    a <= x <= b || b <= x <= a
  }

  /** The per-step increment `max / (risetime / dt)`: a surface moving by it
      once per time step goes from neutral to `max` in `risetime` seconds.
      None stands for the division by zero raised when `dt` or `risetime` is 0. */
  function Rate(max: real, risetime: real, dt: real): (r: Option<real>)
    ensures r.Some? <==> dt != 0.0 && risetime != 0.0
    ensures r.Some? ==> r.value * risetime == max * dt
    ensures 0.0 < max && 0.0 < risetime && 0.0 < dt ==> r.Some? && 0.0 < r.value
  {
    if dt == 0.0 then None
    else
      var stepsPerRise := risetime / dt;
      if stepsPerRise == 0.0 then None
      else
        var r := max / stepsPerRise;
        assert r * stepsPerRise == max;
        assert r * risetime == r * stepsPerRise * dt;
        Some(r)
  }

  /** One call of a move function: snap to `target` when it is closer than one
      increment, otherwise move one increment towards it. */
  function Step(cur: real, target: real, rate: real): (r: real)
    // a command already at its target stays there, whatever the increment
    ensures cur == target ==> r == cur
    // with a positive increment: never more than one increment per call ...
    ensures 0.0 < rate ==> Abs(r - cur) <= rate
    // ... never past the target ...
    ensures 0.0 < rate ==> Between(cur, r, target)
    // ... a full increment whenever the target is at least one increment away ...
    ensures 0.0 < rate && rate <= Abs(cur - target) ==> Abs(r - cur) == rate
    // ... so the remaining distance shrinks by one increment, or to nothing
    ensures 0.0 < rate ==>
      Abs(r - target) == if Abs(cur - target) < rate then 0.0 else Abs(cur - target) - rate
    ensures 0.0 < rate ==> (r == target <==> Abs(cur - target) <= rate)
  {
    if Abs(cur - target) < rate then target
    else if cur < target then cur + rate
    else if cur > target then cur - rate
    else cur
  }

  /** The command after `n` calls with the same target, starting from `cur`. */
  function Iterate(cur: real, target: real, rate: real, n: nat): real
  {
    if n == 0 then cur else Step(Iterate(cur, target, rate, n - 1), target, rate)
  }

  /** The distance `n` full increments of size `rate` cover: `n * rate`
      (CoveredIsProduct), built up one increment at a time. */
  function Covered(n: nat, rate: real): real
  {
    if n == 0 then 0.0 else Covered(n - 1, rate) + rate
  }

  /** ceil(d / rate): the fewest whole increments of size `rate` that cover `d`. */
  function StepsNeeded(d: real, rate: real): (n: nat)
    requires 0.0 <= d && 0.0 < rate
    ensures d <= Covered(n, rate) < d + rate
  {
    var q := d / rate;
    var n: nat := if q.Floor as real == q then q.Floor else q.Floor + 1;
    CeilCovers(d, rate, n as real);
    CoveredIsProduct(n, rate);
    n
  }

  lemma MulMonotone(x: real, y: real, c: real)
    requires x <= y && 0.0 < c
    ensures x * c <= y * c
  {
  }

  lemma MulStrict(x: real, y: real, c: real)
    requires x < y && 0.0 < c
    ensures x * c < y * c
  {
  }

  lemma MulLessOne(x: real, c: real)
    ensures (x - 1.0) * c == x * c - c
  {
  }

  lemma MulPred(n: nat, c: real)
    requires 0 < n
    ensures n as real * c == (n - 1) as real * c + c
  {
    assert n as real == (n - 1) as real + 1.0;
  }

  lemma CeilCovers(d: real, rate: real, x: real)
    requires 0.0 <= d && 0.0 < rate
    requires d / rate <= x < d / rate + 1.0
    ensures d <= x * rate < d + rate
  {
    var q := d / rate;
    assert q * rate == d;
    MulMonotone(q, x, rate);
    MulStrict(x - 1.0, q, rate);
    MulLessOne(x, rate);
  }

  lemma {:induction false} CoveredIsProduct(n: nat, rate: real)
    ensures Covered(n, rate) == n as real * rate
  {
    if n > 0 {
      CoveredIsProduct(n - 1, rate);
      MulPred(n, rate);
    }
  }

  lemma {:induction false} CoveredMonotone(m: nat, n: nat, rate: real)
    requires 0.0 < rate && m <= n
    ensures Covered(m, rate) <= Covered(n, rate)
  {
    if m < n {
      CoveredMonotone(m, n - 1, rate);
    }
  }

  lemma StepShrinksDistance(cur: real, target: real, rate: real, left: real)
    requires 0.0 < rate && Abs(cur - target) == Max0(left)
    ensures Abs(Step(cur, target, rate) - target) == Max0(left - rate)
  {
  }

  /** After `n` calls the remaining distance is the initial distance less `n`
      increments, and never below zero. */
  lemma {:induction false} IterateDistance(cur: real, target: real, rate: real, n: nat)
    requires 0.0 < rate
    ensures Abs(Iterate(cur, target, rate, n) - target) == Max0(Abs(cur - target) - Covered(n, rate))
  {
    if n > 0 {
      IterateDistance(cur, target, rate, n - 1);
      StepShrinksDistance(Iterate(cur, target, rate, n - 1), target, rate, Abs(cur - target) - Covered(n - 1, rate));
    }
  }

  /** The same distance in closed form: `max(0, d0 - n * rate)`. */
  lemma {:induction false} IterateDistanceProduct(cur: real, target: real, rate: real, n: nat)
    requires 0.0 < rate
    ensures Abs(Iterate(cur, target, rate, n) - target) == Max0(Abs(cur - target) - n as real * rate)
  {
    IterateDistance(cur, target, rate, n);
    CoveredIsProduct(n, rate);
  }

  /** `StepsNeeded` is the ceiling of `d / rate`: its increments cover `d`, one
      fewer would not, and no count that covers `d` is smaller. */
  lemma {:induction false} StepsNeededIsCeiling(d: real, rate: real, m: nat)
    requires 0.0 <= d && 0.0 < rate
    ensures d <= StepsNeeded(d, rate) as real * rate < d + rate
    ensures d <= m as real * rate ==> StepsNeeded(d, rate) <= m
  {
    var k := StepsNeeded(d, rate);
    CoveredIsProduct(k, rate);
    CoveredIsProduct(m, rate);
    if m < k {
      CoveredMonotone(m, k - 1, rate);
    }
  }

  /** Exact, finite convergence: the target is reached after exactly
      ceil(|cur - target| / rate) calls, not earlier, and held from then on. */
  lemma {:induction false} IterateReachesTarget(cur: real, target: real, rate: real, n: nat)
    requires 0.0 < rate
    ensures Iterate(cur, target, rate, n) == target <==> StepsNeeded(Abs(cur - target), rate) <= n
  {
    var k := StepsNeeded(Abs(cur - target), rate);
    IterateDistance(cur, target, rate, n);
    if k <= n {
      CoveredMonotone(k, n, rate);
    } else {
      CoveredMonotone(n, k - 1, rate);
    }
  }

  /** The distance to the target never grows from one call to a later one. */
  lemma {:induction false} IterateDistanceNonIncreasing(cur: real, target: real, rate: real, m: nat, n: nat)
    requires 0.0 < rate && m <= n
    ensures Abs(Iterate(cur, target, rate, n) - target) <= Abs(Iterate(cur, target, rate, m) - target)
  {
    IterateDistance(cur, target, rate, m);
    IterateDistance(cur, target, rate, n);
    CoveredMonotone(m, n, rate);
  }

  /** Every command on the way lies between the start and the target. */
  lemma {:induction false} IterateBetween(cur: real, target: real, rate: real, n: nat)
    requires 0.0 < rate
    ensures Between(cur, Iterate(cur, target, rate, n), target)
  {
    if n > 0 {
      IterateBetween(cur, target, rate, n - 1);
    }
  }

  /** Full deflection is never exceeded when the start and the target are within it. */
  lemma {:induction false} IterateWithinDeflection(cur: real, target: real, rate: real, max: real, n: nat)
    requires 0.0 < rate
    requires -max <= cur <= max && -max <= target <= max
    ensures -max <= Iterate(cur, target, rate, n) <= max
  {
    IterateBetween(cur, target, rate, n);
  }

  /** Full deflection 1, rise time 0.5 s, time step 0.1 s: the increment is 0.2,
      five calls from neutral reach full deflection, a sixth leaves it there. */
  lemma WorkedExample()
    ensures Rate(1.0, 0.5, 0.1) == Some(0.2)
    ensures seq(7, k requires 0 <= k < 7 => Iterate(0.0, 1.0, 0.2, k))
         == [0.0, 0.2, 0.4, 0.6, 0.8, 1.0, 1.0]
  {
    assert Iterate(0.0, 1.0, 0.2, 1) == 0.2;
    assert Iterate(0.0, 1.0, 0.2, 2) == 0.4;
    assert Iterate(0.0, 1.0, 0.2, 3) == 0.6;
    assert Iterate(0.0, 1.0, 0.2, 4) == 0.8;
    assert Iterate(0.0, 1.0, 0.2, 5) == 1.0;
    assert Iterate(0.0, 1.0, 0.2, 6) == 1.0;
  }
}
