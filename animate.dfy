/** The frame clock of `src/animate.ts`. The host's animation-frame scheduler
    and `performance.now()` are not modelled: timestamps are integer
    parameters, and "schedule `animate` again" is a boolean the caller reads. */
module Animate {

  datatype Option<T> = None | Some(value: T)

  /** One invocation of the callback: the frame number and the multiplier. */
  datatype Call = Call(frame: nat, multiplier: real)

  /** The outcome of one animation frame: skipped, or a logical step with the
      new previous time and the multiplier. */
  datatype Step = Skip | Tick(previous: int, multiplier: real)

  const DefaultFps: int := 60

  /** The step/skip decision of `animate`: a step happens exactly when more
      than one interval has elapsed. */
  function Decide(previous: int, current: int, interval: int): (s: Step)
    requires interval > 0
    ensures s.Tick? <==> current - previous > interval
  {
    var delta := current - previous;
    if delta > interval then
      Tick(current - delta % interval, delta as real / interval as real)
    else
      Skip
  }

  /** A step carries the remainder of the elapsed time forward: the previous
      time advances by a whole positive number of intervals and ends less
      than one interval behind the current time; the multiplier is the
      elapsed time in intervals, above 1. */
  lemma DecideStep(previous: int, current: int, interval: int)
    requires interval > 0 && current - previous > interval
    ensures var s := Decide(previous, current, interval);
      && (current - previous) / interval >= 1
      && s.previous - previous == ((current - previous) / interval) * interval
      && 0 <= current - s.previous < interval
      && s.multiplier > 1.0 && s.multiplier * interval as real == (current - previous) as real
  {
    DivMod(current - previous, interval);
  }

  /** The elapsed time less its remainder is a positive whole number of intervals. */
  lemma DivMod(delta: int, interval: int)
    requires 0 < interval < delta
    ensures delta / interval >= 1
    ensures delta - delta % interval == (delta / interval) * interval
  {
  }

  /** `Math.floor(1000 / fps)`; at least 1 for a rate of at most 1000. */
  function IntervalFor(fps: int): (interval: int)
    requires 0 < fps <= 1000
    ensures 1 <= interval <= 1000
    ensures interval * fps <= 1000 < (interval + 1) * fps
  {
    1000 / fps
  }

  class Loop {
    var active: bool
    /** Whether a callback has been given; the callback itself is the caller's. */
    var hasCallback: bool
    var fps: int
    var frame: nat
    var interval: int
    var startTime: int
    var previousTime: int
    var currentTime: int
    var deltaTime: int

    constructor ()
      ensures !active && !hasCallback && fps == DefaultFps && frame == 0 && interval == 0
      ensures startTime == 0 && previousTime == 0 && currentTime == 0 && deltaTime == 0
    {
      active := false;
      hasCallback := false;
      fps := DefaultFps;
      frame := 0;
      interval := 0;
      startTime := 0;
      previousTime := 0;
      currentTime := 0;
      deltaTime := 0;
    }

    /** `start(callback, fps)` at time `now`. Returns whether `animate` was
        scheduled. Nothing happens without a callback or while active. */
    method Start(callbackGiven: bool, fps: int, now: int) returns (scheduled: bool)
      requires 0 < fps <= 1000
      modifies this
      ensures scheduled == (callbackGiven && !old(active))
      ensures !scheduled ==> unchanged(this)
      ensures scheduled ==> active && hasCallback && frame == 0 && this.fps == fps
      ensures scheduled ==> interval == IntervalFor(fps) && startTime == now && previousTime == now
      ensures scheduled ==> currentTime == old(currentTime) && deltaTime == old(deltaTime)
    {
      if !callbackGiven || IsActive() {
        return false;
      }
      active := true;
      hasCallback := true;
      frame := 0;
      this.fps := fps;
      interval := 1000 / fps;
      startTime := now;
      previousTime := startTime;
      scheduled := true;
    }

    /** `stop()`: only the active flag changes. */
    method Stop()
      modifies this
      ensures !active
      ensures hasCallback == old(hasCallback) && fps == old(fps) && frame == old(frame)
      ensures interval == old(interval) && startTime == old(startTime)
      ensures previousTime == old(previousTime) && currentTime == old(currentTime)
      ensures deltaTime == old(deltaTime)
    {
      active := false;
    }

    /** `isActive()`. */
    function IsActive(): (a: bool)
      reads this
      ensures a <==> active
    {
      active
    }

    /** The body of `animate(timestamp)` up to the callback: decide whether this
        frame is a logical step and, if so, update the clock and return the
        callback's arguments. Whether `animate` is scheduled again is
        `IsActive()` read after the callback has run. `animate` is only ever
        scheduled by `Start`, which set a positive interval. */
    method Animate(timestamp: int) returns (call: Option<Call>)
      requires interval > 0
      modifies this
      ensures currentTime == timestamp && deltaTime == timestamp - old(previousTime)
      ensures active == old(active) && hasCallback == old(hasCallback) && fps == old(fps)
      ensures interval == old(interval) && startTime == old(startTime)
      ensures Decide(old(previousTime), timestamp, interval).Skip? ==>
        frame == old(frame) && previousTime == old(previousTime) && call == None
      ensures Decide(old(previousTime), timestamp, interval).Tick? ==>
        frame == old(frame) + 1 && previousTime == Decide(old(previousTime), timestamp, interval).previous
        && call == if hasCallback then Some(Call(frame, Decide(old(previousTime), timestamp, interval).multiplier)) else None
    {
      currentTime := timestamp;
      deltaTime := currentTime - previousTime;
      call := None;
      if deltaTime > interval {
        previousTime := currentTime - (deltaTime % interval);
        var multiplier := deltaTime as real / interval as real;
        frame := frame + 1;
        if hasCallback {
          call := Some(Call(frame, multiplier));
        }
      }
    }
  }

  /** At most one logical step per timestamp: after a step, a second frame at
      the same timestamp is skipped, because the remainder carried forward is
      below one interval. */
  lemma OneStepPerTimestamp(previous: int, current: int, interval: int)
    requires interval > 0 && current - previous > interval
    ensures Decide(Decide(previous, current, interval).previous, current, interval).Skip?
  {
    DecideStep(previous, current, interval);
  }
}
