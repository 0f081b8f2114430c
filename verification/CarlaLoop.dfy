/**
 * The lockstep of the reactor program with the driving simulator: a sensor tick of the simulator
 * and a control command one microstep later drive each other. The simulator's own computation
 * is a parameter of each step.
 */
module CarlaLoop {
  import opened Options
  import opened Tags

  datatype Control = Control(throttle: real, steer: real, brake: real)

  const NEUTRAL: Control := Control(0.0, 0.0, 0.0)

  class CarlaBridge {
    var currentControl: Control
    var frameCount: nat
    var ticks: nat
    /** The controls the vehicle was given, in order. */
    var applied: seq<Control>

    constructor ()
      ensures currentControl == NEUTRAL && frameCount == 0 && ticks == 0 && applied == []
    {
      currentControl, frameCount, ticks, applied := NEUTRAL, 0, 0, [];
    }

    /** One tick of the world activates the sensors. */
    method Initialize()
      modifies this
      ensures ticks == old(ticks) + 1 && frameCount == old(frameCount)
      ensures currentControl == old(currentControl) && applied == old(applied)
    {
      ticks := ticks + 1;
    }

    /** Applies the current control, ticks the world, and keeps the control that is returned. */
    method Step(returned: Control)
      modifies this
      ensures ticks == old(ticks) + 1 && frameCount == old(frameCount) + 1
      ensures applied == old(applied) + [old(currentControl)]
      ensures currentControl == returned
    {
      applied := applied + [currentControl];
      ticks := ticks + 1;
      frameCount := frameCount + 1;
      currentControl := returned;
    }

    method ApplyControl(override: Option<Control>)
      modifies this`currentControl
      ensures currentControl == if override.Some? then override.value else old(currentControl)
    {
      if override.Some? {
        currentControl := override.value;
      }
    }
  }

  /** The Carla and ControlBridge reactors with the event between them. */
  class Loop {
    const start: int
    const bridge: CarlaBridge
    var tag: Tag
    var latestControl: Option<Control>
    var pending: Option<(Tag, Option<Control>)>
    /** What the simulator's steps returned. */
    ghost var returned: seq<Control>

    /**
     * Between reactions: the frame after microstep m is m + 1, one tick more than frames has
     * passed, no time has, and each control but the first came from the step before.
     */
    ghost predicate Valid()
      reads this, bridge
    {
      && tag.time == start
      && bridge.frameCount == |returned| == tag.microstep + 1
      && bridge.ticks == tag.microstep + 2
      && latestControl == None
      && pending == Some((Tag(start, tag.microstep + 1), None))
      && bridge.currentControl == returned[|returned| - 1]
      && bridge.applied == [NEUTRAL] + returned[..|returned| - 1]
    }

    /** Both startup reactions, and ControlBridge's reaction to the first sensor tick. */
    constructor (start: int, result: Control)
      ensures Valid() && fresh(bridge) && this.start == start && returned == [result]
    {
      this.start := start;
      tag := Tag(start, 0);
      latestControl := None;
      pending := None;
      returned := [];
      var b := new CarlaBridge();
      b.Initialize();
      b.Step(result);
      bridge := b;
      new;
      returned := [result];
      ForwardControl();
    }

    /** ControlBridge answers a sensor tick; the connection back has a delay of zero. */
    method ForwardControl()
      modifies this`pending
      ensures pending == Some((NextMicrostep(tag), latestControl))
    {
      pending := Some((NextMicrostep(tag), latestControl));
    }

    /** The next tag: Carla reacts to the control command, ControlBridge to the sensor tick. */
    method React(result: Control)
      requires Valid()
      modifies this, bridge
      ensures Valid() && returned == old(returned) + [result]
      ensures tag == NextMicrostep(old(tag))
      ensures bridge.applied == old(bridge.applied) + [old(returned)[|old(returned)| - 1]]
    {
      var (at, command) := pending.value;
      tag, pending := at, None;
      bridge.ApplyControl(command);
      bridge.Step(result);
      returned := returned + [result];
      ForwardControl();
    }
  }

  /** A whole run, given what the simulator returns at each step. */
  method Run(start: int, results: seq<Control>) returns (loop: Loop)
    requires results != []
    ensures fresh(loop) && fresh(loop.bridge) && loop.Valid() && loop.returned == results
    ensures loop.tag == Tag(start, |results| - 1)
    ensures loop.bridge.frameCount == |results| && loop.bridge.ticks == |results| + 1
    ensures loop.bridge.applied == [NEUTRAL] + results[..|results| - 1]
  {
    loop := new Loop(start, results[0]);
    for m := 1 to |results|
      invariant loop.Valid() && loop.start == start && fresh(loop) && fresh(loop.bridge)
      invariant loop.returned == results[..m]
    {
      loop.React(results[m]);
      assert results[..m + 1] == results[..m] + [results[m]];
    }
    assert results[..|results|] == results;
  }
}
