# Roll test: rate-limited control-surface commands

This project models the control logic of `RollTest.py`. The script flies a
JSBSim aircraft through an aileron kick: full aileron until 12 s of simulated
time, then back to neutral. It records the resulting trajectory.

The control surfaces are never set directly. Each control function
(`moveAileron`, `moveRudder`, `moveElevator`) reads the surface's normalised
command from the engine's property store. If the target is closer than one
per-step increment, it snaps to the target. Otherwise it moves one increment
towards the target. It then writes the command back.

The increment is `max / (risetime / dt)`. This is the step that takes a
surface from neutral to full deflection in `risetime` seconds. The sampling
loop runs `int(run_period / dt)` iterations. Each iteration advances the
engine and appends one value to each recorded series. It then steers the
aileron by the time rule.

Modules:

- `RateLimit` (`rate_limit.dfy`) holds the step rule `Step`, the increment
  derivation `Rate`, and `Iterate`, which repeats `Step` with a fixed target.
  The lemmas cover the bounded step, no overshoot, idempotence at the target,
  monotone and exact finite convergence, preserved bounds and the worked
  example.
- `Maneuver` (`maneuver.dfy`) holds the time rule `AileronTarget` and
  `Commands`. `Commands` is the sequence of aileron commands that the loop
  samples when the time rule drives `Step` once per iteration. Its lemmas
  cover step-by-step agreement, bounds, the per-iteration rate limit and the
  return to neutral after the switch time.
- `RollTest` (`roll_test.dfy`) models the script itself. It has the loop count
  `Iterations` and a class `Script` for the script's global state: the
  engine's property store as a `map<string, real>` (holding both the engine's
  own writes and the three surface commands), the three increments, and
  the recorded lists as `seq` fields. The class has the three control
  functions as methods over one shared `MoveSurface`, and the sampling loop
  `Run`. `Run` is proved against `Commands`.

The engine is abstract. Each `fdm.run()` is one `Sample`: the simulated time
it reaches and the map of properties it writes into the store. The writes
include the roll angle `attitude/phi-deg`, the pitch angle
`attitude/theta-deg` and the altitude `position/h-agl-ft`, which the loop
then reads back from the store. A run's samples are given to `Run` as an
input sequence. `EngineStep` states the one assumption made about the engine:
it does not write the three `fcs/*-cmd-norm` properties, so only the control
functions change them.

All arithmetic is over `real`. The convergence claims are exact only under
exact arithmetic.

How the code behaves at its edges:

- Only a zero divisor fails (`dt == 0` or `risetime == 0`), through the
  division by zero. `Rate` returns `None` in exactly those cases. A negative
  rise time or time step gives a negative increment with no error. The
  properties of `Step` are therefore stated for a positive increment.
- `Step` keeps the code's branch order: `abs(current - target) < increment`,
  then `current < target`, then `current > target`.
- Only the aileron is driven. The rudder and elevator controls are defined but
  never called. The elevator series therefore repeats the starting elevator
  command.

## Model

| member | source | states |
|---|---|---|
| `RateLimit.Rate` | RollTest.py:41-43 | The increment exists exactly when `dt` and the rise time are non-zero; otherwise the script fails with a division by zero. `rate * risetime == max * dt`, so `risetime / dt` steps of size `rate` cover `max`. The increment is positive for positive `max`, `risetime` and `dt`. |
| `RateLimit.Step` | RollTest.py:49-56 | A command already at its target stays there, for any increment. With a positive increment, one call moves the command by at most one increment. The new command lies between the old one and the target, so there is no overshoot. When the target is at least one increment away, the command moves by exactly one increment. The remaining distance shrinks by one increment or to zero. The target is reached exactly when it was at most one increment away. |
| `RateLimit.IterateDistance` | RollTest.py:49-56 | After `n` calls with a fixed target, the distance to the target is the starting distance `d0` less `n` increments added up one call at a time (`Covered`), and never below zero. |
| `RateLimit.IterateDistanceProduct` | RollTest.py:49-56 | The same distance in closed form: after `n` calls it is `max(0, d0 - n * rate)`, where `d0` is the starting distance. |
| `RateLimit.StepsNeededIsCeiling` | RollTest.py:49-56 | The number of calls `IterateReachesTarget` names is `ceil(d / rate)`: that many increments cover the distance `d`, one fewer does not, and no smaller count of increments covers it. |
| `RateLimit.IterateReachesTarget` | RollTest.py:49-56 | After `n` calls the command equals the target exactly when `n >= ceil(abs(start - target) / rate)`. The target is reached within that many calls, not earlier, and then held. |
| `RateLimit.IterateDistanceNonIncreasing` | RollTest.py:49-56 | Under repeated calls with a fixed target, the distance to the target never grows. |
| `RateLimit.IterateBetween` | RollTest.py:49-56 | Every command produced by repeated calls lies between the start and the target. |
| `RateLimit.IterateWithinDeflection` | RollTest.py:33-57 | If the start and the target are within `[-max, max]`, every command produced by repeated calls is within `[-max, max]`, so full deflection is never exceeded. |
| `RateLimit.WorkedExample` | RollTest.py:33-56 | With `max = 1`, rise time 0.5 and `dt = 0.1`, the increment is 0.2. From 0, calls towards 1 give 0.2, 0.4, 0.6, 0.8 and 1.0, and a sixth call gives 1.0 again. |
| `Maneuver.AileronTarget` | RollTest.py:128-131 | Every simulated time gets exactly one of the two targets: full aileron up to and including 12 s, neutral after it. Both targets are within full deflection. |
| `Maneuver.CommandsStep` | RollTest.py:122-131 | Each command in the trace is one step of the rate limiter from the previous command, towards the target that the time rule gives for that iteration's time. |
| `Maneuver.CommandsWithinDeflection` | RollTest.py:113-131 | If the run starts within full deflection, no aileron command of the run exceeds it. |
| `Maneuver.CommandsRateLimited` | RollTest.py:113-131 | Consecutive aileron commands of a run never differ by more than one increment. |
| `Maneuver.CommandsFollowTarget` | RollTest.py:128-131 | Over consecutive iterations whose times all get the same target, the commands are the repeated steps towards that target. |
| `Maneuver.ReturnsToNeutral` | RollTest.py:128-131 | Once every iteration's time is past 12 s, the aileron is exactly neutral after `ceil(abs(command) / rate)` iterations, and it stays neutral while the time stays past 12 s. |
| `Maneuver.KickRelease` | RollTest.py:128-131 | With full deflection 1 and increment 0.2, starting from full aileron, the five iterations after 12 s give 0.8, 0.6, 0.4, 0.2 and exactly 0. |
| `RollTest.Iterations` | RollTest.py:113 | The loop count is the quotient `period / dt` truncated, with `n <= period / dt < n + 1`. There are no iterations when the quotient is below 1, negative quotients included. |
| `RollTest.Script.constructor` | RollTest.py:30-43 | Set-up derives the three increments from the engine's time step and the rise time, and starts with empty recorded series. The increments are positive when the time step is. |
| `RollTest.Script.MoveSurface` | RollTest.py:47-81 | Reads the command under the given property, stores `Step` of it towards the target, and changes no other property. |
| `RollTest.Script.MoveAileron` | RollTest.py:47-57 | Writes `Step(old aileron command, state, diAileron)` to `fcs/aileron-cmd-norm` only. |
| `RollTest.Script.MoveRudder` | RollTest.py:59-69 | Writes `Step(old rudder command, state, diRudder)` to `fcs/rudder-cmd-norm` only. |
| `RollTest.Script.MoveElevator` | RollTest.py:71-81 | Writes `Step(old elevator command, state, diElevator)` to `fcs/elevator-cmd-norm` only. |
| `RollTest.Script.ApplyEngineStep` | RollTest.py:114 | One `fdm.run()`: the engine's writes overwrite the store; every other property keeps its value. |
| `RollTest.Script.Record` | RollTest.py:116-123 | One iteration appends exactly one value to each of the six series: the time, then the roll, pitch, altitude, aileron and elevator values as they stand in the store. |
| `RollTest.Script.Tick` | RollTest.py:114-131 | One loop iteration. The store takes the engine step's writes, and the series get the step's time, roll, pitch and altitude. They also get the aileron and elevator commands from before the iteration, since the engine does not write them. Then the aileron command becomes one `Step` towards the time rule's target, and nothing else in the store changes. |
| `RollTest.Script.Run` | RollTest.py:113-131 | Runs `int(15 / dt)` iterations. Every series grows by exactly that many values, so they all keep equal length. The time, roll, pitch and altitude series are the values the engine wrote. The aileron series is the `Commands` trace, sampled before each iteration's update. The elevator series repeats the untouched elevator command. Afterwards the store is the starting store overwritten by all the engine's writes in order, with the aileron command set to the trace's last value; the rudder and elevator commands keep their starting values. With a positive time step and a starting command within full deflection, no recorded aileron value exceeds full deflection. |

## Left out

- The JSBSim engine (RollTest.py:2, 14-30, 94-100, 114-115): model loading, engine start flags, the alpha range for trim, initial conditions, `run_ic`, `run`, `get_sim_time` and `get_delta_t`. This is a foreign C++ library. Its time step is a constructor parameter, and each step's results are one `Sample` of the input sequence.
- Trim and its `TrimFailureError` handler (RollTest.py:103-108). This is a foreign call whose only local effect is a printed message, after which the script carries on.
- What the engine writes (RollTest.py:114). The roll, pitch and altitude values and every other property the engine sets are physics computed by the engine. Each step's writes are given as a map, and the model records the values it is given. The model assumes the engine never writes the three `fcs/*-cmd-norm` properties (`EngineStep`).
- The spacing and ordering of the recorded times. They depend on how the engine accumulates simulated time.
- IEEE floating-point rounding in the increments and in the accumulated commands. Over floats, the exact-convergence and worked-example claims hold only approximately.
- A NaN time. Over floats neither `second <= 12` nor `second > 12` holds for NaN, so no aileron update would happen. Reals have no NaN.
- The unused reads at RollTest.py:125-127 and the `print` at RollTest.py:44. They do not affect behaviour.
- Plotting (RollTest.py:134-163). It is presentation only.
