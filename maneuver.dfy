/**
 The scripted aileron kick of the roll test: the time-based target rule, and
 the sequence of aileron commands the sampling loop sees when that rule drives
 the rate-limited step once per iteration.
 */
module Maneuver {
  import opened RateLimit

  /** Simulated time (seconds) up to which full aileron is commanded. */
  const SwitchTime: real := 12.0

  /** The aileron target for simulated time `t`: full deflection up to and
      including the switch time, neutral afterwards. */
  function AileronTarget(t: real, aileronMax: real): (r: real)
    // every time gets exactly one of the two targets
    ensures r == aileronMax || r == 0.0
    ensures t <= SwitchTime ==> r == aileronMax
    ensures SwitchTime < t ==> r == 0.0
    // both targets are within full deflection
    ensures 0.0 <= aileronMax ==> -aileronMax <= r <= aileronMax
  {
    if t <= SwitchTime then aileronMax else 0.0
  }

  /** The aileron commands over a run: element `k` is the command in force at
      the start of iteration `k` (the value sampled there), and the last
      element is the command left after the final iteration. `ts[k]` is the
      simulated time read in iteration `k`. */
  function Commands(a0: real, ts: seq<real>, aileronMax: real, rate: real): (cs: seq<real>)
    ensures |cs| == |ts| + 1
    ensures cs[0] == a0
    decreases |ts|
  {
    if ts == [] then [a0]
    else [a0] + Commands(Step(a0, AileronTarget(ts[0], aileronMax), rate), ts[1..], aileronMax, rate)
  }

  /** Each command is one step of the rate limiter from the previous one,
      towards the target for that iteration's time. */
  lemma {:induction false} CommandsStep(a0: real, ts: seq<real>, aileronMax: real, rate: real, k: nat)
    requires k < |ts|
    ensures Commands(a0, ts, aileronMax, rate)[k + 1]
         == Step(Commands(a0, ts, aileronMax, rate)[k], AileronTarget(ts[k], aileronMax), rate)
    decreases k
  {
    if k > 0 {
      var a1 := Step(a0, AileronTarget(ts[0], aileronMax), rate);
      CommandsStep(a1, ts[1..], aileronMax, rate, k - 1);
    }
  }

  /** Starting within full deflection, no command of the run exceeds it. */
  lemma {:induction false} CommandsWithinDeflection(a0: real, ts: seq<real>, aileronMax: real, rate: real)
    requires 0.0 < rate && 0.0 <= aileronMax
    requires -aileronMax <= a0 <= aileronMax
    ensures forall k :: 0 <= k < |ts| + 1 ==>
      -aileronMax <= Commands(a0, ts, aileronMax, rate)[k] <= aileronMax
    decreases |ts|
  {
    if ts != [] {
      var a1 := Step(a0, AileronTarget(ts[0], aileronMax), rate);
      CommandsWithinDeflection(a1, ts[1..], aileronMax, rate);
    }
  }

  /** Consecutive commands never differ by more than one increment. */
  lemma {:induction false} CommandsRateLimited(a0: real, ts: seq<real>, aileronMax: real, rate: real)
    requires 0.0 < rate
    ensures forall k :: 0 <= k < |ts| ==>
      Abs(Commands(a0, ts, aileronMax, rate)[k + 1] - Commands(a0, ts, aileronMax, rate)[k]) <= rate
    decreases |ts|
  {
    if ts != [] {
      var a1 := Step(a0, AileronTarget(ts[0], aileronMax), rate);
      CommandsRateLimited(a1, ts[1..], aileronMax, rate);
    }
  }

  /** Over iterations whose times all give the same target, the commands
      follow repeated steps towards that target. */
  lemma {:induction false} CommandsFollowTarget(a0: real, ts: seq<real>, aileronMax: real, rate: real,
                                                i: nat, m: nat, target: real)
    requires i + m <= |ts|
    requires forall j :: i <= j < i + m ==> AileronTarget(ts[j], aileronMax) == target
    ensures Commands(a0, ts, aileronMax, rate)[i + m]
         == Iterate(Commands(a0, ts, aileronMax, rate)[i], target, rate, m)
  {
    if m > 0 {
      CommandsFollowTarget(a0, ts, aileronMax, rate, i, m - 1, target);
      CommandsStep(a0, ts, aileronMax, rate, i + m - 1);
    }
  }

  /** Once the switch time has passed, the aileron is back at neutral after
      ceil(|command| / rate) iterations and stays there. */
  lemma ReturnsToNeutral(a0: real, ts: seq<real>, aileronMax: real, rate: real, i: nat, m: nat)
    requires 0.0 < rate && i + m <= |ts|
    requires forall j :: i <= j < i + m ==> SwitchTime < ts[j]
    requires StepsNeeded(Abs(Commands(a0, ts, aileronMax, rate)[i]), rate) <= m
    ensures Commands(a0, ts, aileronMax, rate)[i + m] == 0.0
  {
    var cs := Commands(a0, ts, aileronMax, rate);
    CommandsFollowTarget(a0, ts, aileronMax, rate, i, m, 0.0);
    assert Abs(cs[i] - 0.0) == Abs(cs[i]);
    IterateReachesTarget(cs[i], 0.0, rate, m);
  }

  /** The kick release with full deflection 1 and increment 0.2: from full
      aileron, the five iterations after the switch time bring the command
      down 0.8, 0.6, 0.4, 0.2 to exactly 0. */
  lemma KickRelease(a0: real, ts: seq<real>, i: nat)
    requires i + 5 <= |ts|
    requires forall j :: i <= j < i + 5 ==> SwitchTime < ts[j]
    requires Commands(a0, ts, 1.0, 0.2)[i] == 1.0
    ensures Commands(a0, ts, 1.0, 0.2)[i..i + 6] == [1.0, 0.8, 0.6, 0.4, 0.2, 0.0]
  {
    var cs := Commands(a0, ts, 1.0, 0.2);
    CommandsStep(a0, ts, 1.0, 0.2, i);
    CommandsStep(a0, ts, 1.0, 0.2, i + 1);
    CommandsStep(a0, ts, 1.0, 0.2, i + 2);
    CommandsStep(a0, ts, 1.0, 0.2, i + 3);
    CommandsStep(a0, ts, 1.0, 0.2, i + 4);
    assert cs[i + 1] == 0.8;
    assert cs[i + 2] == 0.6;
    assert cs[i + 3] == 0.4;
    assert cs[i + 4] == 0.2;
    assert cs[i + 5] == 0.0;
  }
}
