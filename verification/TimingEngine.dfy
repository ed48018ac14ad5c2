/** The playback clock (`TimingEngine`): when the next packet is due, at a given speed, with drift
    correction and with pauses taken out. Times are nanoseconds of a logical clock that the caller
    passes in; speeds are reals, and casts to an integer round down. */
module TimingEngine {
  import opened Prelude

  // The fields of the engine.
  datatype Clock = Clock(
    speed: real, driftCorrection: bool,
    sessionStart: Option<nat>, firstTimestamp: Option<nat>, lastTimestamp: Option<nat>,
    pauseStart: Option<nat>, totalPaused: nat,
    driftTotal: int, driftCount: nat)

  predicate Ticking(c: Clock) { c.speed > 0.0 }

  const NON_MONOTONIC_STEP: nat := 1_000_000

  function Normal(speed: real): (r: real)
    ensures r > 0.0
  {
    if speed <= 0.0 then 1.0 else speed
  }

  // A stretch of recorded time at playback speed.
  function Scaled(duration: nat, speed: real): (r: nat)
    requires speed > 0.0
  {
    QuotientNonNegative(duration as real, speed);
    (duration as real / speed).Floor
  }

  lemma QuotientNonNegative(x: real, y: real)
    requires x >= 0.0 && y > 0.0
    ensures x / y >= 0.0
  {}

  function BaseDelay(c: Clock, timestamp: nat): nat
    requires Ticking(c) && c.lastTimestamp.Some?
  {
    var last := c.lastTimestamp.value;
    Scaled(if timestamp >= last then timestamp - last else NON_MONOTONIC_STEP, c.speed)
  }

  // Where the packet lies on the playback clock, from the start of the segment.
  function Expected(c: Clock, timestamp: nat): nat
    requires Ticking(c)
  {
    var first := if c.firstTimestamp.Some? then c.firstTimestamp.value else timestamp;
    if timestamp >= first then Scaled(timestamp - first, c.speed) else 0
  }

  // Time since the start of the segment, without the pauses.
  function Active(c: Clock, now: nat): nat {
    var start := if c.sessionStart.Some? then c.sessionStart.value else now;
    Minus(Minus(now, start), c.totalPaused)
  }

  function Initialized(c: Clock, first: nat, speed: real, now: nat): Clock {
    c.(speed := Normal(speed), sessionStart := Some(now), firstTimestamp := Some(first), lastTimestamp := Some(first),
       pauseStart := None, totalPaused := 0, driftTotal := 0, driftCount := 0)
  }

  function Paused(c: Clock, now: nat): Clock {
    if c.pauseStart.None? && c.sessionStart.Some? then c.(pauseStart := Some(now)) else c
  }

  function Resumed(c: Clock, now: nat): Clock {
    if c.pauseStart.Some? then
      c.(pauseStart := None, totalPaused := c.totalPaused + Minus(now, c.pauseStart.value))
    else c
  }

  function Restarted(c: Clock, timestamp: nat, now: nat): Clock {
    if c.sessionStart.Some? then
      c.(sessionStart := Some(now), firstTimestamp := Some(timestamp), lastTimestamp := Some(timestamp),
         totalPaused := 0)
    else c
  }

  function SpeedSet(c: Clock, speed: real, timestamp: nat, now: nat): Clock {
    Restarted(c.(speed := Normal(speed)), timestamp, now)
  }

  // What `compute_delay` answers for a packet at this moment.
  function Delay(c: Clock, timestamp: nat, now: nat): nat
    requires Ticking(c)
  {
    if c.lastTimestamp.None? then 0
    else
      var base := BaseDelay(c, timestamp);
      if !c.driftCorrection then base
      else
        var drift := Active(c, now) - Expected(c, timestamp);
        if drift > 0 then Minus(base, drift) else base - drift
  }

  function Delayed(c: Clock, timestamp: nat, now: nat): Clock
    requires Ticking(c)
  {
    var moved := c.(lastTimestamp := Some(timestamp));
    if c.lastTimestamp.None? || !c.driftCorrection then moved
    else moved.(driftTotal := c.driftTotal + (Active(c, now) - Expected(c, timestamp)), driftCount := c.driftCount + 1)
  }

  class TimingEngine {
    var speed: real
    const driftCorrection: bool
    var sessionStart: Option<nat>
    var firstTimestamp: Option<nat>
    var lastTimestamp: Option<nat>
    var pauseStart: Option<nat>
    var totalPaused: nat
    var driftTotal: int
    var driftCount: nat

    ghost function State(): Clock
      reads this
    {
      Clock(
        speed, driftCorrection, sessionStart, firstTimestamp, lastTimestamp,
        pauseStart, totalPaused, driftTotal, driftCount)
    }

    constructor (driftCorrection: bool)
      ensures State() == Clock(1.0, driftCorrection, None, None, None, None, 0, 0, 0)
    {
      this.driftCorrection := driftCorrection;
      speed, sessionStart, firstTimestamp, lastTimestamp := 1.0, None, None, None;
      pauseStart, totalPaused, driftTotal, driftCount := None, 0, 0, 0;
    }

    method Initialize(first: nat, newSpeed: real, now: nat)
      modifies this
      ensures State() == Initialized(old(State()), first, newSpeed, now)
    {
      speed := if newSpeed <= 0.0 then 1.0 else newSpeed;
      sessionStart, firstTimestamp, lastTimestamp := Some(now), Some(first), Some(first);
      pauseStart, totalPaused, driftTotal, driftCount := None, 0, 0, 0;
    }

    method Pause(now: nat)
      modifies this
      ensures State() == Paused(old(State()), now)
    {
      if pauseStart.None? && sessionStart.Some? {
        pauseStart := Some(now);
      }
    }

    method Resume(now: nat)
      modifies this
      ensures State() == Resumed(old(State()), now)
    {
      if pauseStart.Some? {
        totalPaused := totalPaused + Minus(now, pauseStart.value);
        pauseStart := None;
      }
    }

    method SetSpeed(newSpeed: real, timestamp: nat, now: nat)
      modifies this
      ensures State() == SpeedSet(old(State()), newSpeed, timestamp, now)
    {
      speed := if newSpeed <= 0.0 then 1.0 else newSpeed;
      if sessionStart.Some? {
        sessionStart, firstTimestamp, lastTimestamp := Some(now), Some(timestamp), Some(timestamp);
        totalPaused := 0;
      }
    }

    method Reset(timestamp: nat, now: nat)
      modifies this
      ensures State() == Restarted(old(State()), timestamp, now)
    {
      if sessionStart.Some? {
        sessionStart, firstTimestamp, lastTimestamp := Some(now), Some(timestamp), Some(timestamp);
        totalPaused := 0;
      }
    }

    method ComputeDelay(timestamp: nat, now: nat) returns (delay: nat)
      requires Ticking(State())
      modifies this
      ensures delay == Delay(old(State()), timestamp, now)
      ensures State() == Delayed(old(State()), timestamp, now)
    {
      if lastTimestamp.None? {
        lastTimestamp := Some(timestamp);
        return 0;
      }
      var last := lastTimestamp.value;
      var originalDelta := if timestamp >= last then timestamp - last else NON_MONOTONIC_STEP;
      lastTimestamp := Some(timestamp);
      var base := Scaled(originalDelta, speed);
      if !driftCorrection {
        return base;
      }
      var first := if firstTimestamp.Some? then firstTimestamp.value else timestamp;
      var expectedElapsed := if timestamp >= first then Scaled(timestamp - first, speed) else 0;
      var start := if sessionStart.Some? then sessionStart.value else now;
      var activeElapsed := Minus(Minus(now, start), totalPaused);
      var drift := activeElapsed - expectedElapsed;
      delay := if drift > 0 then Minus(base, drift) else base - drift;
      driftTotal := driftTotal + drift;
      driftCount := driftCount + 1;
    }
  }

  /* What the delay achieves */

  function Max(a: int, b: int): int { if a >= b then a else b }

  // Sleeping the delay ends at the packet's place on the clock plus its base delay, or right away.
  lemma DelayReachesTarget(c: Clock, timestamp: nat, now: nat)
    requires Ticking(c) && c.driftCorrection && c.lastTimestamp.Some?
    ensures Active(c, now) + Delay(c, timestamp, now) ==
      Max(Active(c, now), Expected(c, timestamp) + BaseDelay(c, timestamp))
  {}

  lemma ScaledAdds(a: nat, b: nat, speed: real)
    requires speed > 0.0
    ensures Scaled(a, speed) + Scaled(b, speed) <= Scaled(a + b, speed)
  {
    var x, y := a as real / speed, b as real / speed;
    assert (a + b) as real / speed == x + y;
    FloorAdds(x, y);
  }

  lemma FloorAdds(x: real, y: real)
    ensures x.Floor + y.Floor <= (x + y).Floor
  {}

  // Between in-order packets of one segment the base delay is at most what the clock position gains.
  lemma BaseWithinGap(c: Clock, timestamp: nat)
    requires Ticking(c) && c.firstTimestamp.Some? && c.lastTimestamp.Some?
    requires c.firstTimestamp.value <= c.lastTimestamp.value <= timestamp
    ensures Expected(c, c.lastTimestamp.value) + BaseDelay(c, timestamp) <= Expected(c, timestamp)
  {
    ScaledAdds(c.lastTimestamp.value - c.firstTimestamp.value, timestamp - c.lastTimestamp.value, c.speed);
  }

  // Pausing and resuming stops the active clock for exactly the time between.
  lemma PauseStopsClock(c: Clock, from: nat, to: nat, now: nat)
    requires c.sessionStart.Some? && c.pauseStart.None?
    requires c.sessionStart.value + c.totalPaused <= from <= to <= now
    ensures
      var after := Resumed(Paused(c, from), to);
      && Active(after, to) == Active(c, from)
      && Active(after, now) == Active(c, now) - (to - from)
  {}

  // A restart during a pause is charged with the part of the pause before it: the clock then stands
  // still for that long after resuming. It keeps time exactly when the restart came at once.
  lemma RestartWhilePausedLoses(c: Clock, timestamp: nat, from: nat, restart: nat, to: nat)
    requires c.sessionStart.Some? && c.pauseStart.None? && from <= restart <= to
    ensures
      var after := Resumed(Restarted(Paused(c, from), timestamp, restart), to);
      && (forall now :: now >= to ==> Active(after, now) == Minus(now - to, restart - from))
      && ((forall now :: now >= to ==> Active(after, now) == now - to) <==> restart == from)
  {
    var after := Resumed(Restarted(Paused(c, from), timestamp, restart), to);
    if restart != from {
      assert Active(after, to + 1) < 1;
    }
  }
}
