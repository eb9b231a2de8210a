# MQTT fan accessory — a Dafny model

This project models the `MQTTFan` Homebridge accessory. The accessory exposes a fan
with two characteristics: Active and RotationSpeed, a percentage from 0 to 100. It
drives the physical fan by publishing a setpoint (a "degree") on the MQTT topic
`update`. A message on the topic `main_switch` cycles the fan through its states.

The accessory keeps two fields. `currentActive` says whether the fan is on.
`currentSpeed` is a level from 1 to n, where n is the number of configured "on"
setpoints. The level is remembered while the fan is off. The model is a set of pure
functions. Each takes the configuration and the current state, and returns the next
state together with the effects, in order: MQTT publishes and characteristic value
pushes.

Modules:

- `Results` (`results.dfy`): `Option`, which also stands for an omitted JavaScript
  argument, and `Result`.
- `Decimal` (`decimal.dfy`): `toString` of an integer setpoint, and the parser a
  subscriber would apply to read it back.
- `SpeedScale` (`speed_scale.dfy`): `getLevelToPercent` and `getPercentToLevel`.
- `Fan` (`fan.dfy`): the configuration, the state and the effects. It also holds
  `updateStatus` with its defaulted arguments, the four characteristic handlers,
  `switcher`, the `message` listener and the constructor's first publish.
- `FanRuns` (`fan_runs.dfy`): sequences of writes and messages. It holds the range
  invariant, the publish count and a reference definition of the toggle cycle.
  Lemmas connect that definition to `switcher`, to the full cycle and to a concrete
  three-level scenario.

`updateStatus` is partial. When the next state is "on" at a level with no setpoint,
`on[nextSpeed - 1]` is `undefined`, and calling `toString` on it throws before
anything is published or committed. The model returns `Err(UndefinedDegree)` in that
case. The two write handlers catch the error, so the write is dropped. The `message`
listener has no `try`, so there the error propagates. `FanRuns.RunKeepsRange` proves
that this path cannot be reached from any in-range state, and so never after start-up.

Facts about the code that the model keeps:

- The level is never validated. `getPercentToLevel` clamps the level into [1, n].
  Only an undefined setpoint makes `updateStatus` fail, and an "off" transition to
  an out-of-range level would be accepted.
- `switcher` turns the fan off when `onLength <= currentSpeed`, so a level above n
  also turns it off.
- `switcher` has no check for a state that violates the range invariant.
- The toggle topic is the fixed string `main_switch`.
- The constructor calls `updateStatus()` once, which publishes the "off" setpoint
  and pushes both characteristic values.
- In exact arithmetic level n always reports 100 %. The code's floating-point
  arithmetic does not always; see `SpeedScale.LevelToPercent` under "Left out".

## Model

| member | source | states |
|---|---|---|
| `Decimal.NatDigits` | src/index.ts:116 | A non-negative setpoint renders as a non-empty digit string with no superfluous leading zero, and it begins with '0' only for zero |
| `Decimal.Render` | src/index.ts:116 | The published payload parses back to exactly the setpoint it was rendered from |
| `Decimal.ParseOnlyRenderings` | src/index.ts:116 | A string parses to n if and only if it is n's rendering, so a payload determines its setpoint |
| `SpeedScale.LevelToPercent` | src/index.ts:126-131 | The reported percentage always lies in [0, 100]; any level at or above n reports 100 and any level at or below 0 reports 0 |
| `SpeedScale.LevelToPercentIsFloor` | src/index.ts:126-131 | For a level in [1, n] the percentage r is the floor of level * 100 / n: r * n <= level * 100 < (r + 1) * n |
| `SpeedScale.LevelToPercentMonotone` | src/index.ts:126-131 | A higher level never reports a lower percentage |
| `SpeedScale.LevelToPercentStrict` | src/index.ts:126-131 | With at most 100 levels, distinct levels report distinct percentages |
| `SpeedScale.PercentToLevel` | src/index.ts:133-138 | The selected level always lies in [1, n]; a request of 0 or below selects level 1, never 0, and a request of 100 or above selects n |
| `SpeedScale.PercentToLevelIsCeiling` | src/index.ts:133-138 | For a request p in (0, 100] the level r is the least with p * n <= r * 100: (r - 1) * 100 < p * n <= r * 100 |
| `SpeedScale.PercentToLevelMonotone` | src/index.ts:133-138 | A larger request never selects a lower level |
| `SpeedScale.LevelRoundTrip` | src/index.ts:126-138 | With at most 100 levels, converting a level to a percentage and back gives the same level |
| `SpeedScale.LevelRoundTripFailsAboveHundred` | src/index.ts:126-138 | The two conversions are not inverses in general: with 200 levels, level 3 reports 1 %, and 1 % selects level 2 |
| `SpeedScale.PercentSnapsUp` | src/index.ts:126-138 | A request in [0, 100] selects the lowest level whose percentage reaches it: that level reports at least the request, and the level below reports less |
| `SpeedScale.PercentToLevelIdempotent` | src/index.ts:126-138 | With at most 100 levels, writing back the percentage that a write produced selects the same level again |
| `Fan.Degree` | src/index.ts:114 | Off selects the off setpoint. On at a level in [1, n] selects `on[level - 1]`, and on at any other level is undefined |
| `Fan.UpdateStatus` | src/index.ts:111-124 | An omitted argument keeps the current field. The call fails exactly when the next state is on at a level with no setpoint. Otherwise the new state is exactly (active, speed), and there are exactly three effects: one publish on `update` whose payload parses to `on[speed-1]` or `off`, then the Active value, then the percentage of the new level. So the effects announce exactly the new state: its setpoint, then what the two get handlers report for it |
| `Fan.HandleActiveGet` | src/index.ts:83-87 | Reports ACTIVE exactly when the fan is on, and INACTIVE otherwise |
| `Fan.HandleRotationSpeedGet` | src/index.ts:89-91 | Reports a percentage in [0, 100], derived from the stored level; 100 at the top level |
| `Fan.HandleActiveSet` | src/index.ts:93-101 | Never changes the remembered speed. From an in-range state it sets the power to `value == ACTIVE` and publishes once. Turning the fan off always succeeds and publishes once. A write that goes through publishes the new state's setpoint (`off`, or `on[level - 1]`) and pushes the Active and RotationSpeed values the get handlers then report. A failing write is swallowed, leaving state and effects untouched |
| `Fan.HandleRotationSpeedSet` | src/index.ts:103-109 | Never changes the power state and never fails. It stores `getPercentToLevel(percent)`, which is in range, and publishes once. It publishes the new state's setpoint and pushes the Active and RotationSpeed values the get handlers then report. Afterwards the reported percentage is at least the requested one |
| `Fan.Switcher` | src/index.ts:140-156 | Off goes to (on, 1). On at a level >= n goes to (off, same level). On below n goes to (on, level + 1), failing only for a level below 0. Each success publishes the new state's setpoint once, then tells HomeKit the new Active and RotationSpeed values |
| `Fan.OnMessage` | src/index.ts:65-72 | A `main_switch` message performs one `switcher` call, which succeeds and publishes once from an in-range state. Any other topic leaves the state unchanged with no effects |
| `Fan.Start` | src/index.ts:26-63 | The constructor's update cannot fail. The accessory starts off at level 1, and the effects are exactly: one publish of the off setpoint on `update`, then INACTIVE, then the percentage of level 1 |
| `FanRuns.UpdateEventsOk` | src/index.ts:111-124 | An update to an in-range state only produces a configured setpoint on `update`, a valid Active value, and the percentage of a configured level |
| `FanRuns.ApplyKeepsRange` | src/index.ts:65-109 | From an in-range state, every write and every message succeeds and stays in range. Each one publishes exactly once if it is a write or a `main_switch` message, and never otherwise. A driving input publishes the new state's setpoint and pushes exactly the values the get handlers then report |
| `FanRuns.RunKeepsRange` | src/index.ts:93-156 | From an in-range state, every sequence of writes and messages succeeds and keeps the level in [1, n]. It emits only permitted effects, and publishes once per driving input |
| `FanRuns.ReachableInRange` | src/index.ts:26-27 | After start-up, whatever arrives, the level stays in [1, n] |
| `FanRuns.OtherTopicIgnored` | src/index.ts:65-72 | A message on a topic other than `main_switch` changes nothing and publishes nothing |
| `FanRuns.ReadsMatchNotifications` | src/index.ts:118-123 | After an update, the pushed Active and RotationSpeed values are exactly what the two get handlers then report |
| `FanRuns.Republish` | src/index.ts:111-116 | Repeating the current state is not short-circuited. It keeps the state, publishes the current setpoint again, and equals passing the current values explicitly |
| `FanRuns.SwitcherFollowsCycle` | src/index.ts:140-156 | `switcher` succeeds exactly on states it can leave. It then moves to the reference cycle's next state and publishes that state's setpoint |
| `FanRuns.RunFollowsCycle` | src/index.ts:65-72 | k `main_switch` messages succeed, end in the k-th state of the reference cycle, and publish the rendered setpoints of the states passed through |
| `FanRuns.Climb` | src/index.ts:151-155 | While on at level j, k toggles with j + k <= n reach level j + k and publish `on[j..j+k]` |
| `FanRuns.ClimbAndStop` | src/index.ts:147-155 | From (on, 1), n toggles end off at level n. They publish the setpoints of levels 2..n, then the off setpoint |
| `FanRuns.ToggleCycle` | src/index.ts:140-156 | From off at any remembered level, n + 1 toggles end off at level n. The setpoints published are `on + [off]` |
| `FanRuns.MainSwitchCycle` | src/index.ts:140-156 | From off, n + 1 `main_switch` messages succeed. They publish every "on" setpoint in level order, then the off setpoint, and leave the fan off at level n |
| `FanRuns.TogglesFromOff` | src/index.ts:147-155 | From off, k `main_switch` messages with 1 <= k <= n leave the fan on at level k |
| `FanRuns.ThreeLevelCycle` | src/index.ts:140-156 | With setpoints 10, 20, 30 and 0 for off, five toggles from start-up go (on,1), (on,2), (on,3), (off,3), (on,1), with setpoints 10, 20, 30, 0, 10 |
| `FanRuns.ThreeLevelScenario` | src/index.ts:114-116 | The same five `main_switch` messages succeed and publish "10", "20", "30", "0", "10" |

## Left out

- Homebridge registration, `getServices` and the AccessoryInformation service are
  framework plumbing with no state.
- The MQTT connection, its credentials and the subscription are transport. A publish
  is modelled as a `Publish` effect in the step result.
- The HAP `Characteristic` objects and `updateValue` are modelled as
  `ActiveUpdated`/`RotationSpeedUpdated` effects.
- Logging is not modelled, including the error log in the write handlers' `catch`.
- Concurrency is not modelled. JavaScript runs every handler to completion on one
  thread, so inputs are applied one at a time.
- What Node.js does after the `message` listener throws is not modelled. A failing
  toggle ends a run with `Err`, and that state is proved unreachable.
- A configuration with no "on" setpoints is not modelled: every operation requires
  at least one level. The code does not validate this.
- SpeedScale.LevelToPercent: the code computes `Math.floor(level * (100 / n))` in
  binary floating point, and the model uses the exact floor of level * 100 / n. For
  n up to 96 the two agree on every level. For some larger n they differ by one: with
  n = 97, level 97 gives 99 in IEEE double arithmetic but 100 exactly.
- SpeedScale.PercentToLevel: the code computes `Math.ceil(percent / (100 / n))` in
  floating point, and the model uses the exact ceiling of percent * n / 100. For n up
  to 57 the two agree on every percentage from 0 to 100. With n = 58, 50 % gives 30
  in floating point but 29 exactly.
- Fan.HandleRotationSpeedSet: the written percentage is an integer. Fractional and
  NaN values, which HomeKit does not send for this characteristic, are not modelled.
  The promise that the reported percentage is at least the requested one holds of
  the exact conversions. In the code's floating-point arithmetic it first fails at
  n = 97: a 100 % request selects level 97, which reports 99.
- Fan.HandleRotationSpeedGet: "100 at the top level" holds of the exact conversion.
  In floating point it first fails at n = 97, where level 97 reports 99.
- SpeedScale.LevelRoundTrip: proved for the exact conversions with n up to 100. In
  floating point it first fails at n = 58, where level 29 reports 50 % and 50 %
  selects level 30. It fails again at n = 62, at level 31.
- SpeedScale.PercentToLevelIdempotent: proved for the exact conversions. In floating
  point it first fails at n = 58: a 49 % request selects level 29, which reports
  50 %, and 50 % selects level 30.
- SpeedScale.PercentSnapsUp: proved for the exact conversions. In floating point
  its first clause first fails at n = 97, where a 100 % request selects level 97,
  which reports 99. Its second clause first fails at n = 58, where 50 % selects
  level 30 although level 29 already reports 50.
- The other SpeedScale lemmas describe the exact conversions. They also hold of the
  code's floating-point arithmetic for n up to 57, where the two conversions agree.
  Monotonicity, and strictness for n up to 100, hold in floating point as well.
- Fan.UpdateStatus: setpoints are integers. The rendering of fractional setpoints
  and of magnitudes of 1e21 and above, which JavaScript writes in exponent form, is
  not modelled.
- Fan.HandleActiveSet: the written value is an integer compared with ACTIVE (1). The
  strict-equality behaviour for values of other JavaScript types is not modelled.
