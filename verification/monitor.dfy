/**
 The heart monitor's trace engine: the phase clock, the rolling buffer of
 samples, one animation tick, and the mapping of samples to canvas pixels.
 A session holds what the component keeps between frames: the cycle time
 and the buffer of data points.
 */
module Monitor {
  import opened JsNumbers
  import opened Types
  import opened Constants
  import opened Waveform

  /** Horizontal distance between two consecutive samples, in pixels. */
  const STEP: real := 1.5
  /** Capacity of the buffer: 1200 / 1.5 + 1 samples. */
  const MAX_POINTS: nat := 801
  /** The canvas element is always created 1200 pixels wide. */
  const CANVAS_WIDTH: nat := 1200
  /** Sample amplitudes are scaled so that 400 units span the canvas height. */
  const AMPLITUDE_SPAN: real := 400.0

  // The rolling buffer

  /** True when every sample lies in the range the generator can produce. */
  ghost predicate SamplesInRange(b: seq<real>) {
    forall i :: 0 <= i < |b| ==> -22.5 <= b[i] <= 36.0
  }

  /** The buffer a mounting monitor starts with: an empty buffer is replaced by
      `MAX_POINTS` zeros, any other is kept. */
  function PreFill(b: seq<real>): (r: seq<real>)
    ensures |b| == 0 ==> |r| == MAX_POINTS && forall i :: 0 <= i < |r| ==> r[i] == 0.0
    ensures |b| != 0 ==> r == b
  {
    if |b| == 0 then seq(MAX_POINTS, _ => 0.0) else b
  }

  /** Append a sample, then drop the oldest one if the buffer has grown past
      its capacity. At most one sample is dropped. */
  function Push(b: seq<real>, y: real): (r: seq<real>)
    ensures |r| == if |b| < MAX_POINTS then |b| + 1 else |b|
    ensures |b| + 1 - |r| <= 1 && r == (b + [y])[|b| + 1 - |r|..]
    ensures r[|r| - 1] == y
  {
    var appended := b + [y];
    if |appended| > MAX_POINTS then appended[1..] else appended
  }

  /** Pushing a sample in range onto a buffer of samples in range keeps every sample in range. */
  lemma PushKeepsRange(b: seq<real>, y: real)
    ensures SamplesInRange(b) && -22.5 <= y <= 36.0 ==> SamplesInRange(Push(b, y))
  {
  }

  /** On a full buffer a push is a shift: the oldest sample leaves, the others
      move one place towards the front, and the new one comes last. */
  lemma PushOnFullBuffer(b: seq<real>, y: real)
    requires |b| == MAX_POINTS
    ensures Push(b, y) == b[1..] + [y]
    ensures |Push(b, y)| == MAX_POINTS
    ensures forall i :: 0 <= i < MAX_POINTS - 1 ==> Push(b, y)[i] == b[i + 1]
  {
  }

  /** The buffer after pushing a sequence of samples one by one. */
  function PushAll(b: seq<real>, ys: seq<real>): seq<real>
    decreases |ys|
  {
    if ys == [] then b else PushAll(Push(b, ys[0]), ys[1..])
  }

  /** A full buffer always holds the last `MAX_POINTS` samples of its whole
      history, oldest first. */
  lemma {:induction false} PushAllKeepsWindow(b: seq<real>, ys: seq<real>)
    requires |b| == MAX_POINTS
    ensures PushAll(b, ys) == (b + ys)[|ys|..]
    ensures |PushAll(b, ys)| == MAX_POINTS
    decreases |ys|
  {
    if ys == [] {
      assert b + ys == b;
    } else {
      var b' := Push(b, ys[0]);
      PushOnFullBuffer(b, ys[0]);
      PushAllKeepsWindow(b', ys[1..]);
      calc {
        PushAll(b, ys);
        PushAll(b', ys[1..]);
        (b' + ys[1..])[|ys| - 1..];
        { assert b' + ys[1..] == (b + ys)[1..]; }
        (b + ys)[1..][|ys| - 1..];
        (b + ys)[|ys|..];
      }
    }
  }

  // The phase clock

  /** Per-frame phase increment for a rate-bearing activity: 0.012 of a cycle
      per frame at 60 beats per minute, in proportion to the rate. */
  function RateSpeed(bpm: real): real {
    (bpm / 60.0) * 0.012
  }

  /** The faster the heart, the faster the trace cycles. */
  lemma RateSpeedStrictlyIncreasing(bpm: real, bpm': real)
    requires bpm < bpm'
    ensures RateSpeed(bpm) < RateSpeed(bpm')
  {
  }

  /** Per-frame phase increment of an activity; the crisis rhythm, which has no
      rate, sweeps at a fixed 0.04. */
  function CycleSpeed(a: ActivityLevel): (speed: real)
    ensures 0.0 < speed < 1.0
    ensures a == Crisis ==> speed == 0.04
    ensures a != Crisis ==> speed == Bpm(a) as real * 0.0002
  {
    if a == Crisis then 0.04 else RateSpeed(Bpm(a) as real)
  }

  lemma CycleSpeedsOfActivities()
    ensures CycleSpeed(Sleeping) == 0.012
    ensures CycleSpeed(Walking) == 0.02
    ensures CycleSpeed(Sprinting) == 0.034
    ensures CycleSpeed(Sleeping) < CycleSpeed(Walking) < CycleSpeed(Sprinting) < CycleSpeed(Crisis)
  {
  }

  /** The clock's step: `(phase + speed) % 1.0`. From a phase in [0, 1) and an
      increment below one it wraps at most once. */
  function NextPhase(phase: real, speed: real): (r: real)
    ensures 0.0 <= phase + speed ==> 0.0 <= r < 1.0
    ensures 0.0 <= phase < 1.0 && 0.0 <= speed < 1.0 ==>
      r == if phase + speed < 1.0 then phase + speed else phase + speed - 1.0
  {
    Mod1(phase + speed)
  }

  // Geometry of the picture

  datatype Canvas = Canvas(width: nat, height: nat)

  datatype Point = Point(x: real, y: real)

  /** What one frame paints (grid and colours aside): the polyline through the
      samples and the leader dot at the right edge. */
  datatype Picture = Picture(trace: seq<Point>, leader: Option<Point>)

  /** The vertical pixel of a sample: the canvas mid-line, minus the sample
      scaled so that `AMPLITUDE_SPAN` units fill the height. */
  function PixelY(v: real, height: nat): (y: real)
    ensures y == height as real * (200.0 - v) / AMPLITUDE_SPAN
    ensures v == 0.0 ==> y == height as real / 2.0
    ensures 0 < height ==> (y < height as real / 2.0 <==> 0.0 < v)
  {
    height as real / 2.0 - v * (height as real / AMPLITUDE_SPAN)
  }

  /** Reading a sample back from its pixel recovers it on any canvas of positive height. */
  lemma PixelYInvertible(v: real, height: nat)
    requires 0 < height
    ensures (height as real / 2.0 - PixelY(v, height)) * (AMPLITUDE_SPAN / height as real) == v
  {
  }

  /** A sample is drawn inside the canvas exactly when it lies within half the
      amplitude span of zero; zero is drawn on the mid-line. */
  lemma PixelYInsideCanvas(v: real, height: nat)
    requires 0 < height
    ensures 0.0 <= PixelY(v, height) <= height as real <==> -200.0 <= v <= 200.0
    ensures PixelY(0.0, height) == height as real / 2.0
  {
    var h := height as real;
    assert PixelY(v, height) == h * (200.0 - v) / AMPLITUDE_SPAN;
    if v < -200.0 {
      assert h * (200.0 - v) > h * 400.0 by { MulStrict(h, 400.0, 200.0 - v); }
    }
    if v > 200.0 {
      assert h * (200.0 - v) < h * 0.0 by { MulStrict(h, 200.0 - v, 0.0); }
    }
    if -200.0 <= v <= 200.0 {
      assert h * (200.0 - v) <= h * 400.0 by { MulMono(h, 200.0 - v, 400.0); }
      assert h * 0.0 <= h * (200.0 - v) by { MulMono(h, 0.0, 200.0 - v); }
    }
  }

  lemma MulStrict(h: real, a: real, b: real)
    requires 0.0 < h && a < b
    ensures h * a < h * b
  {
  }

  lemma MulMono(h: real, a: real, b: real)
    requires 0.0 <= h && a <= b
    ensures h * a <= h * b
  {
  }

  /** Sample `i` of the buffer becomes the polyline vertex at x = i * STEP. */
  function Plot(b: seq<real>, height: nat): (pts: seq<Point>)
    ensures |pts| == |b|
    ensures forall i :: 0 <= i < |pts| ==> pts[i] == Point(i as real * STEP, PixelY(b[i], height))
  {
    seq(|b|, i requires 0 <= i < |b| => Point(i as real * STEP, PixelY(b[i], height)))
  }

  /** The picture of a buffer: its polyline, and the leader dot at the canvas's
      right edge at the height of the newest sample (none for an empty buffer). */
  function Render(c: Canvas, b: seq<real>): (p: Picture)
    ensures |p.trace| == |b|
    ensures forall i :: 0 <= i < |b| ==> p.trace[i] == Point(i as real * STEP, PixelY(b[i], c.height))
    ensures p.leader.Some? <==> |b| > 0
    ensures |b| > 0 ==> p.leader == Some(Point(c.width as real, p.trace[|b| - 1].y))
  {
    var leader := if |b| > 0 then Some(Point(c.width as real, PixelY(b[|b| - 1], c.height))) else None;
    Picture(Plot(b, c.height), leader)
  }

  /** The polyline runs left to right from x = 0; a full buffer on the 1200-pixel
      canvas ends exactly at the right edge, where the leader dot sits on it. */
  lemma TraceSpansCanvas(c: Canvas, b: seq<real>)
    requires |b| == MAX_POINTS && c.width == CANVAS_WIDTH
    ensures Render(c, b).trace[0].x == 0.0
    ensures forall i, j :: 0 <= i < j < |b| ==> Render(c, b).trace[i].x < Render(c, b).trace[j].x
    ensures Render(c, b).trace[MAX_POINTS - 1].x == c.width as real
    ensures Render(c, b).leader == Some(Render(c, b).trace[MAX_POINTS - 1])
  {
  }

  // One animation tick

  /** What the component keeps between frames. */
  datatype Session = Session(cycleTime: real, dataPoints: seq<real>)

  /** The state a session is always in between frames. */
  ghost predicate Valid(s: Session) {
    && 0.0 <= s.cycleTime < 1.0
    && |s.dataPoints| == MAX_POINTS
    && SamplesInRange(s.dataPoints)
  }

  /** A freshly mounted monitor: phase 0 and a pre-filled buffer. */
  function Mount(): (s: Session)
    ensures Valid(s)
    ensures s.cycleTime == 0.0
    ensures forall i :: 0 <= i < |s.dataPoints| ==> s.dataPoints[i] == 0.0
  {
    Session(0.0, PreFill([]))
  }

  /** The outcome of one frame: the loop stops, or the frame is drawn and the
      next one scheduled. */
  datatype Outcome = Stopped | Drawn(next: Session, picture: Picture)

  /** One frame for the activity current at that frame. `canvas` is `None` when
      the canvas or its 2D context is missing; the frame then returns at once,
      updating nothing and scheduling no further frame. */
  function Draw(s: Session, canvas: Option<Canvas>, activity: ActivityLevel,
                now: int, random: real, sin: Sine): (o: Outcome)
    ensures canvas.None? <==> o.Stopped?
    ensures o.Drawn? ==> o.next.cycleTime == NextPhase(s.cycleTime, CycleSpeed(activity))
    ensures o.Drawn? ==> |o.next.dataPoints| > 0 && o.next.dataPoints == Push(s.dataPoints, o.next.dataPoints[|o.next.dataPoints| - 1])
    ensures o.Drawn? ==> o.picture == Render(canvas.value, o.next.dataPoints)
    ensures o.Drawn? && Valid(s) && 0.0 <= random < 1.0 ==> Valid(o.next)
  {
    match canvas
    case None => Stopped
    case Some(c) =>
      var phase := NextPhase(s.cycleTime, CycleSpeed(activity));
      var y := Heartbeat(phase, Bpm(activity) as real, activity == Crisis, now, random, sin);
      var points := Push(s.dataPoints, y);
      PushKeepsRange(s.dataPoints, y);
      Drawn(Session(phase, points), Render(c, points))
  }

  /** The newest sample is the generator's value at the new phase for the
      current activity. */
  lemma DrawAppendsHeartbeat(s: Session, c: Canvas, activity: ActivityLevel,
                             now: int, random: real, sin: Sine)
    ensures var o := Draw(s, Some(c), activity, now, random, sin);
      o.next.dataPoints[|o.next.dataPoints| - 1]
        == Heartbeat(o.next.cycleTime, Bpm(activity) as real, activity == Crisis, now, random, sin)
  {
  }

  /** Switching the activity between frames does not reset or cut the buffer:
      the frames drawn for two activities differ only in their newest sample. */
  lemma SwitchingActivityKeepsTrace(s: Session, c: Canvas, a: ActivityLevel, a': ActivityLevel,
                                    now: int, random: real, sin: Sine)
    requires |s.dataPoints| == MAX_POINTS
    ensures var o := Draw(s, Some(c), a, now, random, sin);
      var o' := Draw(s, Some(c), a', now, random, sin);
      && |o.next.dataPoints| == |o'.next.dataPoints| == MAX_POINTS
      && o.next.dataPoints[..MAX_POINTS - 1] == o'.next.dataPoints[..MAX_POINTS - 1] == s.dataPoints[1..]
  {
    var o := Draw(s, Some(c), a, now, random, sin);
    var o' := Draw(s, Some(c), a', now, random, sin);
    PushOnFullBuffer(s.dataPoints, o.next.dataPoints[MAX_POINTS - 1]);
    PushOnFullBuffer(s.dataPoints, o'.next.dataPoints[MAX_POINTS - 1]);
  }

  /** Every vertex of a valid session's picture lies inside the canvas. */
  lemma TraceStaysOnCanvas(s: Session, c: Canvas)
    requires Valid(s) && 0 < c.height
    ensures forall i :: 0 <= i < MAX_POINTS ==>
      0.0 <= Render(c, s.dataPoints).trace[i].y <= c.height as real
  {
    forall i | 0 <= i < MAX_POINTS
      ensures 0.0 <= Render(c, s.dataPoints).trace[i].y <= c.height as real
    {
      PixelYInsideCanvas(s.dataPoints[i], c.height);
    }
  }

  /** What the environment supplies to one frame. */
  datatype FrameInput = FrameInput(canvas: Option<Canvas>, activity: ActivityLevel, now: int, random: real)

  /** Frames drawn one after another from session `s`: the session left
      after the last frame, and whether a frame stopped the loop (the frames
      after it are never drawn). */
  function RunFrames(s: Session, frames: seq<FrameInput>, sin: Sine): (r: (Session, bool))
    ensures r.1 <==> exists i :: 0 <= i < |frames| && frames[i].canvas.None?
    decreases |frames|
  {
    if frames == [] then (s, false)
    else
      var f := frames[0];
      match Draw(s, f.canvas, f.activity, f.now, f.random, sin)
      case Stopped => (s, true)
      case Drawn(next, _) =>
        MissingCanvasInRest(frames);
        RunFrames(next, frames[1..], sin)
  }

  /** Some frame of a non-empty run lacks a canvas iff the first does or a later one does. */
  lemma MissingCanvasInRest(frames: seq<FrameInput>)
    requires frames != []
    ensures (exists i :: 0 <= i < |frames| && frames[i].canvas.None?) <==>
      frames[0].canvas.None? || exists i :: 0 <= i < |frames[1..]| && frames[1..][i].canvas.None?
  {
    if exists i :: 0 <= i < |frames| && frames[i].canvas.None? {
      var i :| 0 <= i < |frames| && frames[i].canvas.None?;
      if i > 0 {
        assert frames[1..][i - 1].canvas.None?;
      }
    }
  }

  /** Any run of frames from a valid session leaves a valid session: the phase
      stays in [0, 1) and the buffer at `MAX_POINTS` samples in range. The run
      stops exactly when some frame finds no canvas. */
  lemma {:induction false} RunFramesKeepsValid(s: Session, frames: seq<FrameInput>, sin: Sine)
    requires Valid(s)
    requires forall i :: 0 <= i < |frames| ==> 0.0 <= frames[i].random < 1.0
    ensures Valid(RunFrames(s, frames, sin).0)
    ensures RunFrames(s, frames, sin).1 <==> exists i :: 0 <= i < |frames| && frames[i].canvas.None?
    decreases |frames|
  {
    if frames != [] {
      var f := frames[0];
      var o := Draw(s, f.canvas, f.activity, f.now, f.random, sin);
      if o.Drawn? {
        RunFramesKeepsValid(o.next, frames[1..], sin);
        if exists i :: 0 <= i < |frames| && frames[i].canvas.None? {
          var i :| 0 <= i < |frames| && frames[i].canvas.None?;
          assert frames[1..][i - 1].canvas.None?;
        }
      }
    }
  }

  /** The animation loop from mounting: runs frame after frame until one finds
      no canvas, and returns the session and whether the loop stopped. */
  method Animate(frames: seq<FrameInput>, sin: Sine) returns (s: Session, stopped: bool)
    requires forall i :: 0 <= i < |frames| ==> 0.0 <= frames[i].random < 1.0
    ensures (s, stopped) == RunFrames(Mount(), frames, sin)
    ensures Valid(s)
    ensures 0.0 <= s.cycleTime < 1.0 && |s.dataPoints| == MAX_POINTS
    ensures stopped <==> exists i :: 0 <= i < |frames| && frames[i].canvas.None?
  {
    s := Mount();
    stopped := false;
    var k := 0;
    while k < |frames| && !stopped
      invariant 0 <= k <= |frames|
      invariant Valid(s)
      invariant RunFrames(Mount(), frames, sin) == if stopped then (s, true) else RunFrames(s, frames[k..], sin)
    {
      var f := frames[k];
      assert frames[k..][0] == f && frames[k..][1..] == frames[k + 1..];
      var o := Draw(s, f.canvas, f.activity, f.now, f.random, sin);
      if o.Stopped? {
        stopped := true;
      } else {
        s := o.next;
      }
      k := k + 1;
    }
    if !stopped {
      assert frames[k..] == [];
    }
    RunFramesKeepsValid(Mount(), frames, sin);
  }
}
