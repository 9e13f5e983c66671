/**
 * Frame spacing and the capacity of every agent's trail, derived once from
 * the trace before any frame is drawn.
 */
module Spacing {
  import opened Swarm

  /** Spacing assumed when the trace has fewer than two frames. */
  const FallbackSpacing: real := 0.1

  /** Length, in time units, of the window a trail covers. */
  const TrailWindow: real := 60.0

  /** The spacing of the trace: the gap between its first two timestamps. */
  function FrameSpacing(frames: seq<Frame>): (dt: real)
    ensures |frames| < 2 ==> dt == FallbackSpacing
    ensures |frames| >= 2 ==> (dt > 0.0 <==> frames[0].t < frames[1].t) && (dt == 0.0 <==> frames[0].t == frames[1].t)
  {
    if |frames| > 1 then frames[1].t - frames[0].t else FallbackSpacing
  }

  /** Conversion of a real to an integer by dropping its fractional part (toward zero). */
  function Truncate(x: real): (n: int)
    ensures 0.0 <= x ==> 0 <= n && n as real <= x < n as real + 1.0
    ensures x < 0.0 ==> n <= 0 && n as real - 1.0 < x <= n as real
  {
    if x >= 0.0 then x.Floor else -((-x).Floor)
  }

  /** The trail length in frames, int(60 / dt), or the division by zero that aborts the run. */
  function TrailFrames(frames: seq<Frame>): (r: Result<int>)
    ensures r.Err? <==> FrameSpacing(frames) == 0.0
    ensures r.Err? ==> r.failure == DivisionByZero
    ensures r.Ok? ==> r.value == Truncate(TrailWindow / FrameSpacing(frames))
  {
    var dt := FrameSpacing(frames);
    if dt == 0.0 then Err(DivisionByZero) else Ok(Truncate(TrailWindow / dt))
  }

  /**
   * The number of positions each of numAgents trails keeps, or the failure
   * that aborts the run. A negative trail length aborts only once a history
   * is built for some agent; with no agents it is never used, and the
   * capacity is then taken as 0.
   */
  function TrailCapacity(frames: seq<Frame>, numAgents: nat): (r: Result<nat>)
    ensures r == Err(DivisionByZero) <==> FrameSpacing(frames) == 0.0
    ensures r == Err(NegativeCapacity) <==> TrailFrames(frames).Ok? && TrailFrames(frames).value < 0 && numAgents > 0
    ensures r.Ok? && TrailFrames(frames).value >= 0 ==> r.value == TrailFrames(frames).value
    ensures r.Ok? && TrailFrames(frames).value < 0 ==> numAgents == 0 && r.value == 0
    ensures FrameSpacing(frames) > 0.0 ==> r.Ok?
  {
    match TrailFrames(frames)
    case Err(e) => Err(e)
    case Ok(n) =>
      if n >= 0 then Ok(n)
      else if numAgents > 0 then Err(NegativeCapacity)
      else Ok(0)
  }

  /** With a positive spacing the trail spans at most the window, and one more position would exceed it. */
  lemma CapacityFillsWindow(frames: seq<Frame>, numAgents: nat)
    requires FrameSpacing(frames) > 0.0
    ensures TrailCapacity(frames, numAgents).Ok?
    ensures TrailCapacity(frames, numAgents).value as real * FrameSpacing(frames) <= TrailWindow
    ensures TrailWindow < (TrailCapacity(frames, numAgents).value + 1) as real * FrameSpacing(frames)
  {
    var dt := FrameSpacing(frames);
    var q := TrailWindow / dt;
    var n := TrailCapacity(frames, numAgents).value;
    assert n as real <= q < n as real + 1.0;
    assert q * dt == TrailWindow;
  }

  /** A trace of zero or one frames falls back to a spacing of 0.1 and a capacity of 600. */
  lemma ShortTraceCapacity(frames: seq<Frame>, numAgents: nat)
    requires |frames| < 2
    ensures FrameSpacing(frames) == FallbackSpacing
    ensures TrailCapacity(frames, numAgents) == Ok(600)
  {
    assert TrailWindow / FallbackSpacing == 600.0;
  }

  /**
   * A spacing below -60 yields a capacity of zero. One in [-60, 0) gives a
   * negative trail length, which aborts the run as soon as there is an agent.
   */
  lemma NegativeSpacingCapacity(frames: seq<Frame>, numAgents: nat)
    requires FrameSpacing(frames) < 0.0
    ensures FrameSpacing(frames) < -TrailWindow ==> TrailCapacity(frames, numAgents) == Ok(0)
    ensures -TrailWindow <= FrameSpacing(frames) ==>
              TrailCapacity(frames, numAgents) == if numAgents > 0 then Err(NegativeCapacity) else Ok(0)
  {
    var dt := FrameSpacing(frames);
    var q := TrailWindow / dt;
    assert q * dt == TrailWindow;
    if dt < -TrailWindow {
      assert -1.0 < q;
    } else {
      assert q <= -1.0;
    }
  }
}
