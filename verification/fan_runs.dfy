/** Sequences of inputs delivered to one MQTTFan accessory: characteristic writes and
    inbound MQTT messages, applied one at a time (JavaScript runs them on one thread).
    The lemmas here relate whole runs to the single steps of module Fan. */
module FanRuns {
  import opened Results
  import SpeedScale
  import Decimal
  import opened Fan

  /** An input that can change the state: a write to Active, a write to RotationSpeed,
      or an inbound MQTT message on some topic. */
  datatype Input =
    | ActiveSet(value: int)
    | RotationSpeedSet(percent: int)
    | Message(topic: string)

  function Apply(cfg: Config, st: State, i: Input): Result<Step, Fault>
    requires cfg.Valid()
  {
    match i
    case ActiveSet(v) => Ok(HandleActiveSet(cfg, st, v))
    case RotationSpeedSet(p) => Ok(HandleRotationSpeedSet(cfg, st, p))
    case Message(t) => OnMessage(cfg, st, t)
  }

  /** Applies the inputs in order and collects every effect; stops at the first failure. */
  function Run(cfg: Config, st: State, inputs: seq<Input>): Result<Step, Fault>
    requires cfg.Valid()
    decreases |inputs|
  {
    if |inputs| == 0 then Ok(Step(st, []))
    else
      match Apply(cfg, st, inputs[0])
      case Err(e) => Err(e)
      case Ok(first) =>
        match Run(cfg, first.state, inputs[1..])
        case Err(e) => Err(e)
        case Ok(rest) => Ok(Step(rest.state, first.events + rest.events))
  }

  /** The inputs that make the accessory publish: every write, and `main_switch` messages. */
  predicate Drives(i: Input) {
    !i.Message? || i.topic == MainSwitchTopic
  }

  function Transitions(inputs: seq<Input>): nat {
    if |inputs| == 0 then 0 else (if Drives(inputs[0]) then 1 else 0) + Transitions(inputs[1..])
  }

  /** A published payload renders a configured setpoint. */
  predicate PayloadOk(cfg: Config, p: string) {
    var v := Decimal.Parse(p);
    v.Some? && (v.value == cfg.off || v.value in cfg.on)
  }

  /** What an effect may carry: a configured setpoint on the update topic, a valid Active
      value, or the percentage of a configured level. */
  predicate EventOk(cfg: Config, e: Event)
    requires cfg.Valid()
  {
    match e
    case Publish(t, p) => t == UpdateTopic && PayloadOk(cfg, p)
    case ActiveUpdated(v) => v == Active || v == Inactive
    case RotationSpeedUpdated(q) =>
      exists l :: 1 <= l <= cfg.Levels() && q == SpeedScale.LevelToPercent(cfg.Levels(), l)
  }

  predicate EventsOk(cfg: Config, events: seq<Event>)
    requires cfg.Valid()
  {
    forall k :: 0 <= k < |events| ==> EventOk(cfg, events[k])
  }

  /** A successful updateStatus to an in-range state produces only permitted effects. */
  lemma UpdateEventsOk(cfg: Config, st: State, a: Option<bool>, s: Option<int>)
    requires cfg.Valid()
    requires UpdateStatus(cfg, st, a, s).Ok?
    requires InRange(cfg, UpdateStatus(cfg, st, a, s).value.state)
    ensures EventsOk(cfg, UpdateStatus(cfg, st, a, s).value.events)
  {
    var step := UpdateStatus(cfg, st, a, s).value;
    var level := step.state.speed;
    assert EventOk(cfg, step.events[2]) by {
      assert step.events[2].percent == SpeedScale.LevelToPercent(cfg.Levels(), level);
    }
    assert EventOk(cfg, step.events[0]) by {
      if step.state.active {
        assert cfg.on[level - 1] in cfg.on;
      }
    }
  }

  /** One input from an in-range state succeeds, stays in range, produces only permitted
      effects and publishes exactly once when it drives the fan, never otherwise; what a
      driving input publishes and pushes is exactly the new state. */
  lemma ApplyKeepsRange(cfg: Config, st: State, i: Input)
    requires cfg.Valid() && InRange(cfg, st)
    ensures Apply(cfg, st, i).Ok?
    ensures InRange(cfg, Apply(cfg, st, i).value.state)
    ensures EventsOk(cfg, Apply(cfg, st, i).value.events)
    ensures |Payloads(Apply(cfg, st, i).value.events)| == (if Drives(i) then 1 else 0)
    ensures Drives(i) ==> Mirrors(cfg, Apply(cfg, st, i).value)
  {
    match i
    case ActiveSet(v) =>
      UpdateEventsOk(cfg, st, Some(v == Active), None);
    case RotationSpeedSet(p) =>
      UpdateEventsOk(cfg, st, Some(st.active), Some(SpeedScale.PercentToLevel(cfg.Levels(), p)));
    case Message(t) =>
      if t == MainSwitchTopic {
        if !st.active {
          UpdateEventsOk(cfg, st, Some(true), Some(1));
        } else if cfg.Levels() <= st.speed {
          UpdateEventsOk(cfg, st, Some(false), None);
        } else {
          UpdateEventsOk(cfg, st, Some(true), Some(st.speed + 1));
        }
      }
  }

  /** The state invariant: from an in-range state every run succeeds, the level stays
      within [1, n], every effect is permitted and there is exactly one publish per
      driving input. */
  lemma {:induction false} RunKeepsRange(cfg: Config, st: State, inputs: seq<Input>)
    requires cfg.Valid() && InRange(cfg, st)
    ensures Run(cfg, st, inputs).Ok?
    ensures InRange(cfg, Run(cfg, st, inputs).value.state)
    ensures EventsOk(cfg, Run(cfg, st, inputs).value.events)
    ensures |Payloads(Run(cfg, st, inputs).value.events)| == Transitions(inputs)
    decreases |inputs|
  {
    if |inputs| > 0 {
      ApplyKeepsRange(cfg, st, inputs[0]);
      var first := Apply(cfg, st, inputs[0]).value;
      RunKeepsRange(cfg, first.state, inputs[1..]);
      var rest := Run(cfg, first.state, inputs[1..]).value;
      PayloadsAppend(first.events, rest.events);
      var all := first.events + rest.events;
      forall k | 0 <= k < |all|
        ensures EventOk(cfg, all[k])
      {
        if k >= |first.events| {
          assert all[k] == rest.events[k - |first.events|];
        }
      }
    }
  }

  /** Whatever arrives after start-up, the accessory keeps a level in [1, n]. */
  lemma ReachableInRange(cfg: Config, inputs: seq<Input>)
    requires cfg.Valid()
    ensures Run(cfg, Start(cfg).state, inputs).Ok?
    ensures InRange(cfg, Run(cfg, Start(cfg).state, inputs).value.state)
  {
    RunKeepsRange(cfg, Start(cfg).state, inputs);
  }

  /** A message on any topic but `main_switch` changes nothing and publishes nothing. */
  lemma OtherTopicIgnored(cfg: Config, st: State, topic: string)
    requires cfg.Valid() && topic != MainSwitchTopic
    ensures Run(cfg, st, [Message(topic)]) == Ok(Step(st, []))
  {
    assert [Message(topic)][1..] == [];
    assert Run(cfg, st, []) == Ok(Step(st, []));
    var none: seq<Event> := [];
    assert none + none == none;
  }

  /** After any successful updateStatus the read handlers report exactly the values that
      were pushed to the characteristics. */
  lemma ReadsMatchNotifications(cfg: Config, st: State, a: Option<bool>, s: Option<int>)
    requires cfg.Valid() && UpdateStatus(cfg, st, a, s).Ok?
    ensures var step := UpdateStatus(cfg, st, a, s).value;
      && step.events[1] == ActiveUpdated(HandleActiveGet(step.state))
      && step.events[2] == RotationSpeedUpdated(HandleRotationSpeedGet(cfg, step.state))
  {
  }

  /** Repeating the current state is not short-circuited: it still succeeds, leaves the
      state as it was and publishes the current setpoint again. */
  lemma Republish(cfg: Config, st: State)
    requires cfg.Valid() && InRange(cfg, st)
    ensures UpdateStatus(cfg, st, None, None).Ok?
    ensures UpdateStatus(cfg, st, None, None).value.state == st
    ensures Payloads(UpdateStatus(cfg, st, None, None).value.events) ==
      [Decimal.Render(if st.active then cfg.on[st.speed - 1] else cfg.off)]
    ensures UpdateStatus(cfg, st, Some(st.active), Some(st.speed)) == UpdateStatus(cfg, st, None, None)
  {
    var step := UpdateStatus(cfg, st, None, None).value;
    var d := if st.active then cfg.on[st.speed - 1] else cfg.off;
    Decimal.ParseOnlyRenderings(step.events[0].payload, d);
    assert step.events[1..] == [step.events[1], step.events[2]];
    assert step.events[2..] == [step.events[2]];
  }

  /** `k` main_switch messages. */
  function Toggles(k: nat): (ts: seq<Input>)
    ensures |ts| == k
  {
    if k == 0 then [] else [Message(MainSwitchTopic)] + Toggles(k - 1)
  }

  /** The renderings of the setpoints, in order. */
  function RenderAll(ds: seq<int>): (ps: seq<string>)
    ensures |ps| == |ds|
    ensures forall k :: 0 <= k < |ds| ==> Decimal.Parse(ps[k]) == Some(ds[k])
  {
    if |ds| == 0 then [] else [Decimal.Render(ds[0])] + RenderAll(ds[1..])
  }

  lemma RenderAllCons(d: int, ds: seq<int>)
    ensures RenderAll([d] + ds) == [Decimal.Render(d)] + RenderAll(ds)
  {
    assert ([d] + ds)[1..] == ds;
  }

  /** The toggle cycle as a reference definition: off goes on at level 1, on below the
      top level goes one level up, on at or above the top level goes off. */
  function NextToggle(cfg: Config, st: State): State
    requires cfg.Valid()
  {
    if !st.active then State(true, 1)
    else if st.speed >= cfg.Levels() then State(false, st.speed)
    else State(true, st.speed + 1)
  }

  /** A state `switcher` can leave: it only fails when on at a level below 1. */
  predicate Toggleable(st: State) {
    !st.active || st.speed >= 0
  }

  /** The setpoint published for a state the cycle reaches. */
  function Setpoint(cfg: Config, st: State): int
    requires cfg.Valid() && (st.active ==> InRange(cfg, st))
  {
    Degree(cfg, st.active, st.speed).value
  }

  /** The state after k toggles, by the reference definition. */
  function ToggleState(cfg: Config, st: State, k: nat): (r: State)
    requires cfg.Valid() && Toggleable(st)
    ensures Toggleable(r)
    decreases k
  {
    if k == 0 then st else ToggleState(cfg, NextToggle(cfg, st), k - 1)
  }

  /** The setpoints k toggles publish, by the reference definition. */
  function ToggleTrace(cfg: Config, st: State, k: nat): (ds: seq<int>)
    requires cfg.Valid() && Toggleable(st)
    ensures |ds| == k
    decreases k
  {
    if k == 0 then []
    else [Setpoint(cfg, NextToggle(cfg, st))] + ToggleTrace(cfg, NextToggle(cfg, st), k - 1)
  }

  /** One `switcher` call agrees with the reference definition: it succeeds exactly on
      the states it can leave, moves to the next state of the cycle and publishes that
      state's setpoint. */
  lemma SwitcherFollowsCycle(cfg: Config, st: State)
    requires cfg.Valid()
    ensures Switcher(cfg, st).Ok? <==> Toggleable(st)
    ensures Switcher(cfg, st).Ok? ==>
      && Switcher(cfg, st).value.state == NextToggle(cfg, st)
      && Payloads(Switcher(cfg, st).value.events) == [Decimal.Render(Setpoint(cfg, NextToggle(cfg, st)))]
  {
    if Switcher(cfg, st).Ok? {
      var next := Switcher(cfg, st).value;
      var d := if next.state.active then cfg.on[next.state.speed - 1] else cfg.off;
      Decimal.ParseOnlyRenderings(next.events[0].payload, d);
      assert next.events[1..] == [next.events[1], next.events[2]];
      assert next.events[2..] == [next.events[2]];
    }
  }

  /** A run of main_switch messages is the toggle cycle: from a state `switcher` can leave,
      k messages succeed, end in the k-th state of the cycle and publish its trace. */
  lemma {:induction false} RunFollowsCycle(cfg: Config, st: State, k: nat)
    requires cfg.Valid() && Toggleable(st)
    ensures Run(cfg, st, Toggles(k)).Ok?
    ensures Run(cfg, st, Toggles(k)).value.state == ToggleState(cfg, st, k)
    ensures Payloads(Run(cfg, st, Toggles(k)).value.events) == RenderAll(ToggleTrace(cfg, st, k))
    decreases k
  {
    if k == 0 {
      assert Run(cfg, st, []) == Ok(Step(st, []));
    } else {
      SwitcherFollowsCycle(cfg, st);
      var first := Switcher(cfg, st).value;
      var ts := Toggles(k);
      assert ts[0] == Message(MainSwitchTopic) && ts[1..] == Toggles(k - 1);
      RunFollowsCycle(cfg, first.state, k - 1);
      var rest := Run(cfg, first.state, Toggles(k - 1)).value;
      assert Run(cfg, st, ts) == Ok(Step(rest.state, first.events + rest.events));
      PayloadsAppend(first.events, rest.events);
      RenderAllCons(Setpoint(cfg, first.state), ToggleTrace(cfg, first.state, k - 1));
    }
  }

  /** Toggling a then b times is toggling a + b times. */
  lemma {:induction false} ToggleCompose(cfg: Config, st: State, a: nat, b: nat)
    requires cfg.Valid() && Toggleable(st)
    ensures ToggleState(cfg, st, a + b) == ToggleState(cfg, ToggleState(cfg, st, a), b)
    ensures ToggleTrace(cfg, st, a + b) == ToggleTrace(cfg, st, a) + ToggleTrace(cfg, ToggleState(cfg, st, a), b)
    decreases a
  {
    if a > 0 {
      ToggleCompose(cfg, NextToggle(cfg, st), a - 1, b);
    }
  }

  /** From level j while on, k toggles climb to level j + k, publishing the setpoints of
      the levels passed through. */
  lemma {:induction false} Climb(cfg: Config, j: int, k: nat)
    requires cfg.Valid() && 1 <= j && j + k <= cfg.Levels()
    ensures ToggleState(cfg, State(true, j), k) == State(true, j + k)
    ensures ToggleTrace(cfg, State(true, j), k) == cfg.on[j..j + k]
    decreases k
  {
    if k > 0 {
      Climb(cfg, j + 1, k - 1);
      assert cfg.on[j..j + k] == [cfg.on[j]] + cfg.on[j + 1..j + k];
    }
  }

  /** From level 1 while on, n toggles climb to the top level and then go off, publishing
      the setpoints of levels 2..n and then the off setpoint. */
  lemma ClimbAndStop(cfg: Config)
    requires cfg.Valid()
    ensures ToggleState(cfg, State(true, 1), cfg.Levels()) == State(false, cfg.Levels())
    ensures ToggleTrace(cfg, State(true, 1), cfg.Levels()) == cfg.on[1..] + [cfg.off]
  {
    var n := cfg.Levels();
    var on := State(true, 1);
    var top := State(true, n);
    Climb(cfg, 1, n - 1);
    ToggleCompose(cfg, on, n - 1, 1);
    assert cfg.on[1..n] == cfg.on[1..];
    assert ToggleState(cfg, top, 1) == State(false, n);
    assert ToggleTrace(cfg, top, 1) == [cfg.off];
  }

  /** The switch cycle: from "off" at any remembered level, n + 1 toggles pass through
      every level in order, publishing every "on" setpoint and then the "off" setpoint,
      and end "off" at level n. */
  lemma ToggleCycle(cfg: Config, st: State)
    requires cfg.Valid() && !st.active
    ensures ToggleState(cfg, st, cfg.Levels() + 1) == State(false, cfg.Levels())
    ensures ToggleTrace(cfg, st, cfg.Levels() + 1) == cfg.on + [cfg.off]
  {
    var n := cfg.Levels();
    var on := State(true, 1);
    assert NextToggle(cfg, st) == on;
    assert ToggleState(cfg, st, n + 1) == ToggleState(cfg, on, n);
    assert ToggleTrace(cfg, st, n + 1) == [cfg.on[0]] + ToggleTrace(cfg, on, n);
    ClimbAndStop(cfg);
    assert cfg.on == [cfg.on[0]] + cfg.on[1..];
  }

  /** The cycle as the accessory runs it: n + 1 main_switch messages from "off" succeed,
      publish every "on" setpoint in level order and then the "off" setpoint, and leave
      the fan off at the top level. */
  lemma MainSwitchCycle(cfg: Config, st: State)
    requires cfg.Valid() && !st.active
    ensures Run(cfg, st, Toggles(cfg.Levels() + 1)).Ok?
    ensures Run(cfg, st, Toggles(cfg.Levels() + 1)).value.state == State(false, cfg.Levels())
    ensures Payloads(Run(cfg, st, Toggles(cfg.Levels() + 1)).value.events) == RenderAll(cfg.on + [cfg.off])
  {
    RunFollowsCycle(cfg, st, cfg.Levels() + 1);
    ToggleCycle(cfg, st);
  }

  /** From "off", k main_switch messages with 1 <= k <= n leave the fan on at level k. */
  lemma TogglesFromOff(cfg: Config, st: State, k: nat)
    requires cfg.Valid() && !st.active && 1 <= k <= cfg.Levels()
    ensures Run(cfg, st, Toggles(k)).Ok?
    ensures Run(cfg, st, Toggles(k)).value.state == State(true, k)
  {
    RunFollowsCycle(cfg, st, k);
    ToggleCompose(cfg, st, 1, k - 1);
    Climb(cfg, 1, k - 1);
  }

  /** Three levels with setpoints 10, 20, 30 and 0 for off, by the reference definition:
      five toggles from start-up go on at 1, 2, 3, then off remembering 3, then on at 1
      again, with setpoints 10, 20, 30, 0, 10. */
  lemma ThreeLevelCycle(cfg: Config)
    requires cfg == Config([10, 20, 30], 0)
    ensures forall k :: 1 <= k <= 3 ==> ToggleState(cfg, Initial, k) == State(true, k)
    ensures ToggleState(cfg, Initial, 4) == State(false, 3)
    ensures ToggleState(cfg, Initial, 5) == State(true, 1)
    ensures ToggleTrace(cfg, Initial, 5) == [10, 20, 30, 0, 10]
  {
    ToggleCycle(cfg, Initial);
    ToggleCompose(cfg, Initial, 4, 1);
    forall k | 1 <= k <= 3
      ensures ToggleState(cfg, Initial, k) == State(true, k)
    {
      ToggleCompose(cfg, Initial, 1, k - 1);
      Climb(cfg, 1, k - 1);
    }
  }

  /** The same five toggles as the accessory runs them: each succeeds and the payloads
      published on the update topic are "10", "20", "30", "0", "10". */
  lemma ThreeLevelScenario(cfg: Config)
    requires cfg == Config([10, 20, 30], 0)
    ensures Run(cfg, Initial, Toggles(5)).Ok?
    ensures Run(cfg, Initial, Toggles(5)).value.state == State(true, 1)
    ensures Payloads(Run(cfg, Initial, Toggles(5)).value.events) == ["10", "20", "30", "0", "10"]
  {
    RunFollowsCycle(cfg, Initial, 5);
    ThreeLevelCycle(cfg);
    ScenarioPayloads();
  }

  lemma ScenarioPayloads()
    ensures RenderAll([10, 20, 30, 0, 10]) == ["10", "20", "30", "0", "10"]
  {
    Rendered("10", 10);
    Rendered("20", 20);
    Rendered("30", 30);
    assert Decimal.Parse("0") == Some(0);
    Decimal.ParseOnlyRenderings("0", 0);
    RenderAllCons(10, []);
    RenderAllCons(0, [10]);
    RenderAllCons(30, [0, 10]);
    RenderAllCons(20, [30, 0, 10]);
    RenderAllCons(10, [20, 30, 0, 10]);
  }

  /** A two-digit rendering. */
  lemma Rendered(s: string, n: int)
    requires |s| == 2 && '1' <= s[0] <= '9' && '0' <= s[1] <= '9'
    requires n == ((s[0] as int) - ('0' as int)) * 10 + ((s[1] as int) - ('0' as int))
    ensures Decimal.Render(n) == s
  {
    assert Decimal.Canonical(s);
    var p := s[..1];
    assert p == [s[0]] && p[..0] == [];
    assert Decimal.DigitsValue(p) == (s[0] as int) - ('0' as int);
    assert Decimal.DigitsValue(s) == n;
    assert Decimal.Parse(s) == Some(n);
    Decimal.ParseOnlyRenderings(s, n);
  }
}
