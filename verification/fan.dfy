/** The MQTTFan accessory as a state machine: the remembered (active, speed) pair, the
    transition `updateStatus` with its defaulted arguments, the four characteristic
    handlers, the `switcher` toggle cycle and the dispatch of inbound MQTT messages.
    Every operation is a pure function from the current state to the next state and the
    effects it produced, in order: MQTT publishes and characteristic value pushes. */
module Fan {
  import opened Results
  import SpeedScale
  import Decimal

  /** The topic whose messages cycle the fan. */
  const MainSwitchTopic: string := "main_switch"
  /** The topic the setpoint ("degree") is published on. */
  const UpdateTopic: string := "update"

  /** The values of the Active characteristic. */
  const Inactive: int := 0
  const Active: int := 1

  /** `config.degrees`: one setpoint per speed level and the setpoint for "off". */
  datatype Config = Config(on: seq<int>, off: int) {
    /** A fan needs at least one speed level. */
    predicate Valid() {
      |on| >= 1
    }

    /** The number of speed levels, `degrees.on.length`. */
    function Levels(): nat {
      |on|
    }
  }

  /** `currentActive` and `currentSpeed` (a level, remembered while the fan is off). */
  datatype State = State(active: bool, speed: int)

  /** The field initialisers: off, remembering level 1. */
  const Initial: State := State(false, 1)

  /** The effects a transition produces. */
  datatype Event =
    | Publish(topic: string, payload: string)
    | ActiveUpdated(value: int)
    | RotationSpeedUpdated(percent: int)

  /** `on[nextSpeed - 1]` is `undefined` and calling `toString` on it throws. */
  datatype Fault = UndefinedDegree

  /** The state after an operation together with the effects it produced. */
  datatype Step = Step(state: State, events: seq<Event>)

  /** The speed level is one the configuration has a setpoint for. */
  predicate InRange(cfg: Config, st: State) {
    1 <= st.speed <= cfg.Levels()
  }

  /** The payload of an effect that is a publish. */
  function Published(e: Event): seq<string> {
    if e.Publish? then [e.payload] else []
  }

  /** The payloads published, in order. */
  function Payloads(events: seq<Event>): (ps: seq<string>)
    ensures |ps| <= |events|
  {
    if |events| == 0 then [] else Published(events[0]) + Payloads(events[1..])
  }

  lemma {:induction false} PayloadsAppend(a: seq<Event>, b: seq<Event>)
    ensures Payloads(a + b) == Payloads(a) + Payloads(b)
    decreases |a|
  {
    if |a| == 0 {
      assert a + b == b;
    } else {
      var c := a + b;
      assert c[0] == a[0];
      assert c[1..] == a[1..] + b;
      PayloadsAppend(a[1..], b);
      assert Payloads(c) == Published(a[0]) + (Payloads(a[1..]) + Payloads(b));
    }
  }

  function ActiveValue(active: bool): (v: int)
    ensures v == Active <==> active
    ensures v == Active || v == Inactive
  {
    if active then Active else Inactive
  }

  /** The setpoint for (active, level): `off`, or `on[level - 1]`, which is undefined
      for a level without a setpoint. */
  function Degree(cfg: Config, active: bool, speed: int): (d: Option<int>)
    ensures !active ==> d == Some(cfg.off)
    ensures active ==> (d.Some? <==> 1 <= speed <= cfg.Levels())
    ensures active && 1 <= speed <= cfg.Levels() ==> d == Some(cfg.on[speed - 1])
  {
    if !active then Some(cfg.off)
    else if 1 <= speed <= |cfg.on| then Some(cfg.on[speed - 1])
    else None
  }

  /** updateStatus(nextActive = currentActive, nextSpeed = currentSpeed); `None` is an
      argument left out. Publishes the setpoint once, commits both fields and pushes
      both characteristic values; it fails before any effect when the setpoint is
      undefined. */
  function UpdateStatus(cfg: Config, st: State, nextActive: Option<bool>, nextSpeed: Option<int>): (r: Result<Step, Fault>)
    requires cfg.Valid()
    ensures var a, s := nextActive.GetOr(st.active), nextSpeed.GetOr(st.speed);
      && (r.Err? <==> a && !(1 <= s <= cfg.Levels()))
      && (r.Ok? ==>
            && r.value.state == State(a, s)
            && |r.value.events| == 3
            && r.value.events[0].Publish?
            && r.value.events[0].topic == UpdateTopic
            && Decimal.Parse(r.value.events[0].payload) == Some(if a then cfg.on[s - 1] else cfg.off)
            && r.value.events[1] == ActiveUpdated(if a then Active else Inactive)
            && r.value.events[2] == RotationSpeedUpdated(SpeedScale.LevelToPercent(cfg.Levels(), s))
            && |Payloads(r.value.events)| == 1)
    ensures r.Ok? ==> Mirrors(cfg, r.value)
  {
    var a, s := nextActive.GetOr(st.active), nextSpeed.GetOr(st.speed);
    match Degree(cfg, a, s)
    case None => Err(UndefinedDegree)
    case Some(d) =>
      var events := [Publish(UpdateTopic, Decimal.Render(d)),
                     ActiveUpdated(ActiveValue(a)),
                     RotationSpeedUpdated(SpeedScale.LevelToPercent(|cfg.on|, s))];
      assert Payloads(events[2..]) == [];
      assert Payloads(events[1..]) == [];
      assert Payloads(events) == [Decimal.Render(d)];
      Ok(Step(State(a, s), events))
  }

  /** The effects announce the state they lead to: its setpoint is published on
      `update`, then HomeKit is sent exactly the values the two get handlers report. */
  predicate Mirrors(cfg: Config, step: Step)
    requires cfg.Valid()
  {
    var d := Degree(cfg, step.state.active, step.state.speed);
    && d.Some?
    && step.events == [Publish(UpdateTopic, Decimal.Render(d.value)),
                       ActiveUpdated(HandleActiveGet(step.state)),
                       RotationSpeedUpdated(HandleRotationSpeedGet(cfg, step.state))]
  }

  /** The write handlers catch what `updateStatus` throws: the write is dropped. */
  function Recover(st: State, r: Result<Step, Fault>): Step {
    match r
    case Ok(step) => step
    case Err(_) => Step(st, [])
  }

  /** handleActiveGet. */
  function HandleActiveGet(st: State): (v: int)
    ensures v == Active <==> st.active
    ensures v == Active || v == Inactive
  {
    ActiveValue(st.active)
  }

  /** handleRotationSpeedGet: the percentage is always derived from the level. */
  function HandleRotationSpeedGet(cfg: Config, st: State): (p: int)
    requires cfg.Valid()
    ensures 0 <= p <= 100
    ensures st.speed >= cfg.Levels() ==> p == 100
  {
    SpeedScale.LevelToPercent(|cfg.on|, st.speed)
  }

  /** handleActiveSet: switches power and keeps the remembered speed. */
  function HandleActiveSet(cfg: Config, st: State, value: int): (r: Step)
    requires cfg.Valid()
    ensures r.state.speed == st.speed
    ensures InRange(cfg, st) ==> r.state.active == (value == Active) && |Payloads(r.events)| == 1
    ensures value != Active ==> r.state == State(false, st.speed) && |Payloads(r.events)| == 1
    ensures !InRange(cfg, st) && value == Active ==> r == Step(st, [])
    ensures InRange(cfg, st) || value != Active ==> Mirrors(cfg, r)
  {
    Recover(st, UpdateStatus(cfg, st, Some(value == Active), None))
  }

  /** handleRotationSpeedSet: selects the level for the percentage and keeps the power
      state; the level is always one with a setpoint, so the write never fails. */
  function HandleRotationSpeedSet(cfg: Config, st: State, percent: int): (r: Step)
    requires cfg.Valid()
    ensures r.state.active == st.active
    ensures InRange(cfg, r.state)
    ensures r.state.speed == SpeedScale.PercentToLevel(cfg.Levels(), percent)
    ensures |Payloads(r.events)| == 1
    ensures 0 <= percent <= 100 ==> HandleRotationSpeedGet(cfg, r.state) >= percent
    ensures Mirrors(cfg, r)
  {
    var level := SpeedScale.PercentToLevel(|cfg.on|, percent);
    SpeedScale.PercentSnapsUp(|cfg.on|, percent);
    Recover(st, UpdateStatus(cfg, st, Some(st.active), Some(level)))
  }

  /** switcher: off -> on at level 1; on below the top level -> one level up; on at or
      above the top level -> off, remembering the level. */
  function Switcher(cfg: Config, st: State): (r: Result<Step, Fault>)
    requires cfg.Valid()
    ensures !st.active ==> r.Ok? && r.value.state == State(true, 1)
    ensures st.active && st.speed >= cfg.Levels() ==> r.Ok? && r.value.state == State(false, st.speed)
    ensures st.active && st.speed < cfg.Levels() ==>
      (r.Ok? <==> st.speed >= 0) && (r.Ok? ==> r.value.state == State(true, st.speed + 1))
    ensures r.Ok? ==> |Payloads(r.value.events)| == 1
    ensures r.Ok? ==> Mirrors(cfg, r.value)
  {
    if !st.active then UpdateStatus(cfg, st, Some(true), Some(1))
    else if |cfg.on| <= st.speed then UpdateStatus(cfg, st, Some(false), None)
    else UpdateStatus(cfg, st, Some(true), Some(st.speed + 1))
  }

  /** The `message` listener: only `main_switch` does anything; the payload is ignored.
      The listener has no try/catch, so a failing toggle is not recovered. */
  function OnMessage(cfg: Config, st: State, topic: string): (r: Result<Step, Fault>)
    requires cfg.Valid()
    ensures topic != MainSwitchTopic ==> r == Ok(Step(st, []))
    ensures topic == MainSwitchTopic ==> r == Switcher(cfg, st)
    ensures topic == MainSwitchTopic && InRange(cfg, st) ==> r.Ok? && |Payloads(r.value.events)| == 1
  {
    if topic == MainSwitchTopic then Switcher(cfg, st) else Ok(Step(st, []))
  }

  /** The constructor's `updateStatus()` call, outside any try/catch: it cannot fail
      from the initial state, publishes the off setpoint and announces both values. */
  function Start(cfg: Config): (r: Step)
    requires cfg.Valid()
    ensures r.state == Initial
    ensures r.events == [Publish(UpdateTopic, Decimal.Render(cfg.off)),
                         ActiveUpdated(Inactive),
                         RotationSpeedUpdated(SpeedScale.LevelToPercent(cfg.Levels(), 1))]
    ensures Payloads(r.events) == [Decimal.Render(cfg.off)]
  {
    UpdateStatus(cfg, Initial, None, None).value
  }
}
