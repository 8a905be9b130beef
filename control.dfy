/**
 * Keyboard driving of one vehicle: each frame maps the pressed arrow keys
 * to throttle, brake and reverse, and updates a steering angle that steps
 * with Left/Right, is clamped to [-0.7, 0.7], and drifts back to centre
 * when neither is held.
 */
module ManualControl {

  const ThrottleValue: real := 0.5
  const ReverseValue: real := 0.3
  const BrakeValue: real := 0.5
  const SteerStep: real := 0.05
  const MaxSteer: real := 0.7
  const SteerDecay: real := 0.02

  /** The arrow keys held during a frame. */
  datatype Keys = Keys(up: bool, down: bool, left: bool, right: bool)

  /** A window event: closing the window, a key press (Escape or another key), or anything else. */
  datatype Event = Quit | KeyDown(escape: bool) | OtherEvent

  /** One pass of the main loop: the events queued since the last pass and the keys held. */
  datatype Tick = Tick(events: seq<Event>, keys: Keys)

  datatype VehicleControl = VehicleControl(throttle: real, brake: real, steer: real, reverse: bool)

  function Abs(x: real): real
  {
    if x < 0.0 then -x else x
  }

  function Max(a: real, b: real): real
  {
    if a >= b then a else b
  }

  function Min(a: real, b: real): real
  {
    if a <= b then a else b
  }

  /** The steering after one frame: Left, else Right, else a drift toward centre. */
  function NextSteer(steer: real, keys: Keys): real
  {
    if keys.left then Max(-MaxSteer, steer - SteerStep)
    else if keys.right then Min(MaxSteer, steer + SteerStep)
    else if Abs(steer) < SteerDecay then 0.0
    else if steer > 0.0 then steer - SteerDecay
    else steer + SteerDecay
  }

  /** The control for a frame: Up drives forward, else Down reverses, else brake; `steer` is the updated angle. */
  function ControlFor(keys: Keys, steer: real): VehicleControl
  {
    if keys.up then VehicleControl(ThrottleValue, 0.0, steer, false)
    else if keys.down then VehicleControl(ReverseValue, 0.0, steer, true)
    else VehicleControl(0.0, BrakeValue, steer, false)
  }

  /** Up wins over Down; Down alone reverses; with neither the car brakes; only steering comes from the angle. */
  lemma PedalsMeaning(keys: Keys, steer: real)
    ensures var c := ControlFor(keys, steer);
      && c.steer == steer
      && (c.throttle == ThrottleValue <==> keys.up)
      && (c.reverse <==> !keys.up && keys.down)
      && (c.throttle == ReverseValue <==> c.reverse)
      && (c.brake == BrakeValue <==> !keys.up && !keys.down)
      && (c.throttle == 0.0 <==> c.brake == BrakeValue)
      && (c.brake == 0.0 <==> c.throttle > 0.0)
  {
  }

  predicate InRange(steer: real)
  {
    -MaxSteer <= steer <= MaxSteer
  }

  /**
   * Left and Right step by 0.05 within [-0.7, 0.7], Left first; an angle in
   * range stays in range; and with no steering key the angle keeps its sign
   * and moves 0.02 toward centre, or to centre when closer than that.
   */
  lemma SteeringMeaning(steer: real, keys: Keys)
    requires InRange(steer)
    ensures InRange(NextSteer(steer, keys))
    ensures keys.left ==> NextSteer(steer, keys) == Max(-MaxSteer, steer - SteerStep)
    ensures !keys.left && keys.right ==> NextSteer(steer, keys) == Min(MaxSteer, steer + SteerStep)
    ensures !keys.left && !keys.right ==>
      var next := NextSteer(steer, keys);
      && steer * next >= 0.0
      && Abs(next) <= Abs(steer)
      && Abs(next) == Max(Abs(steer) - SteerDecay, 0.0)
  {
  }

  /** Whether an event ends the loop. */
  predicate Stops(e: Event)
  {
    e == Quit || e == KeyDown(true)
  }

  /** The controls applied from `ticks` on, starting from the angle `steer`; the pass that sees a stop event still applies its control. */
  function Applied(ticks: seq<Tick>, steer: real): (cs: seq<VehicleControl>)
    ensures |cs| <= |ticks|
  {
    if ticks == [] then []
    else
      var next := NextSteer(steer, ticks[0].keys);
      var rest := if exists e :: e in ticks[0].events && Stops(e) then [] else Applied(ticks[1..], next);
      [ControlFor(ticks[0].keys, next)] + rest
  }

  /** Starting from the centred wheel, every applied angle lies in [-0.7, 0.7]. */
  lemma {:induction false} AppliedInRange(ticks: seq<Tick>, steer: real)
    requires InRange(steer)
    ensures forall k :: 0 <= k < |Applied(ticks, steer)| ==> InRange(Applied(ticks, steer)[k].steer)
  {
    if ticks != [] {
      var next := NextSteer(steer, ticks[0].keys);
      SteeringMeaning(steer, ticks[0].keys);
      AppliedInRange(ticks[1..], next);
    }
  }

  /** The loop stops right after the first pass with a stop event, or when the input ends. */
  lemma {:induction false} AppliedUntilStop(ticks: seq<Tick>, steer: real)
    ensures forall k :: 0 <= k < |Applied(ticks, steer)| - 1 ==> forall e :: e in ticks[k].events ==> !Stops(e)
    ensures |Applied(ticks, steer)| == |ticks| ||
      exists e :: e in ticks[|Applied(ticks, steer)| - 1].events && Stops(e)
  {
    if ticks != [] {
      AppliedUntilStop(ticks[1..], NextSteer(steer, ticks[0].keys));
    }
  }

  /** The event loop: any Quit or Escape press clears `running`. */
  method PollEvents(events: seq<Event>, running: bool) returns (stillRunning: bool)
    ensures stillRunning <==> running && forall e :: e in events ==> !Stops(e)
  {
    stillRunning := running;
    for i := 0 to |events|
      invariant stillRunning <==> running && forall j :: 0 <= j < i ==> !Stops(events[j])
    {
      match events[i]
      case Quit => stillRunning := false;
      case KeyDown(escape) =>
        if escape {
          stillRunning := false;
        }
      case OtherEvent =>
    }
  }

  /** One pass's control assignments: pedals from the held keys, then the steering update. */
  method ControlStep(keys: Keys, currentSteer: real) returns (control: VehicleControl, newSteer: real)
    ensures newSteer == NextSteer(currentSteer, keys)
    ensures control == ControlFor(keys, newSteer)
  {
    if keys.up {
      control := VehicleControl(ThrottleValue, 0.0, 0.0, false);
    } else if keys.down {
      control := VehicleControl(ReverseValue, 0.0, 0.0, true);
    } else {
      control := VehicleControl(0.0, BrakeValue, 0.0, false);
    }
    newSteer := currentSteer;
    if keys.left {
      newSteer := Max(-MaxSteer, newSteer - SteerStep);
    } else if keys.right {
      newSteer := Min(MaxSteer, newSteer + SteerStep);
    } else if Abs(newSteer) < SteerDecay {
      newSteer := 0.0;
    } else if newSteer > 0.0 {
      newSteer := newSteer - SteerDecay;
    } else {
      newSteer := newSteer + SteerDecay;
    }
    control := control.(steer := newSteer);
  }

  /** The main loop: `current_steer` starts centred and is carried from pass to pass. */
  method Drive(ticks: seq<Tick>) returns (applied: seq<VehicleControl>)
    ensures applied == Applied(ticks, 0.0)
    ensures forall k :: 0 <= k < |applied| ==> InRange(applied[k].steer)
  {
    AppliedInRange(ticks, 0.0);
    var currentSteer := 0.0;
    var running := true;
    var i := 0;
    applied := [];
    while running && i < |ticks|
      invariant 0 <= i <= |ticks|
      invariant running ==> applied + Applied(ticks[i..], currentSteer) == Applied(ticks, 0.0)
      invariant !running ==> applied == Applied(ticks, 0.0)
      decreases |ticks| - i
    {
      var tick := ticks[i];
      running := PollEvents(tick.events, running);
      var control;
      control, currentSteer := ControlStep(tick.keys, currentSteer);
      assert ticks[i..][1..] == ticks[i + 1..];
      applied := applied + [control];
      i := i + 1;
    }
    if running {
      assert ticks[i..] == [];
    }
  }
}
