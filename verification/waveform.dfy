/**
 The heartbeat generator: one amplitude sample for a point of the rhythm
 cycle. Regular activities follow a fixed piecewise shape of the cycle
 position; the crisis rhythm is one of three erratic patterns chosen by a
 two-second bucket of the wall clock.
 */
module Waveform {
  import opened JsNumbers

  /** The pieces of one regular cycle, named after the parts of a heartbeat trace. */
  datatype Segment =
    | Baseline   // flat line
    | PWave      // small rounded bump
    | QWave      // short dip below the line
    | RSpike     // the tall upstroke
    | SRecovery  // the fall back from the peak
    | TWave      // broader rounded hump

  /** The segment a cycle position falls in, by the generator's chain of comparisons. */
  function SegmentAt(c: real): Segment {
    if c < 0.1 then Baseline
    else if c < 0.2 then PWave
    else if c < 0.25 then Baseline
    else if c < 0.27 then QWave
    else if c < 0.32 then RSpike
    else if c < 0.35 then SRecovery
    else if c < 0.45 then Baseline
    else if c < 0.6 then TWave
    else Baseline
  }

  /** The amplitude formula of each segment at cycle position `c`. */
  function SegmentValue(seg: Segment, c: real, sin: Sine): real {
    match seg
    case Baseline => 0.0
    case PWave => sin((c - 0.1) * 10.0 * PI) * 5.0
    case QWave => -(c - 0.25) * 200.0
    case RSpike => (c - 0.27) * 800.0 - 4.0
    case SRecovery => -(c - 0.32) * 500.0 + 36.0
    case TWave => sin((c - 0.45) * 6.6 * PI) * 8.0
  }

  /** The regular waveform at a cycle position. Its peak, 36, is reached at 0.32. */
  function Wave(c: real, sin: Sine): (v: real)
    ensures -8.0 <= v <= 36.0
    ensures c == 0.32 ==> v == 36.0
    ensures SegmentAt(c) == Baseline ==> v == 0.0
  {
    SegmentValue(SegmentAt(c), c, sin)
  }

  // An independent description of the cycle: a table of breakpoints.

  /** Breakpoints of the cycle: segment k covers [Breaks[k], Breaks[k+1]). */
  const Breaks: seq<real> := [0.0, 0.1, 0.2, 0.25, 0.27, 0.32, 0.35, 0.45, 0.6, 1.0]

  const Shapes: seq<Segment> :=
    [Baseline, PWave, Baseline, QWave, RSpike, SRecovery, Baseline, TWave, Baseline]

  /** The breakpoints start at 0, end at 1 and strictly increase, so the segments
      cover [0, 1) without gaps or overlaps. */
  lemma BreaksPartitionCycle()
    ensures |Breaks| == |Shapes| + 1
    ensures Breaks[0] == 0.0 && Breaks[|Breaks| - 1] == 1.0
    ensures forall i, j :: 0 <= i < j < |Breaks| ==> Breaks[i] < Breaks[j]
  {
  }

  /** Every cycle position lies in exactly one interval of the table, and the
      generator's comparisons pick that interval's segment. */
  lemma SegmentAtMatchesTable(c: real)
    requires 0.0 <= c < 1.0
    ensures exists k :: 0 <= k < |Shapes| && Breaks[k] <= c < Breaks[k + 1]
    ensures forall k :: 0 <= k < |Shapes| && Breaks[k] <= c < Breaks[k + 1] ==>
      SegmentAt(c) == Shapes[k]
  {
    BreaksPartitionCycle();
    var k := if c < 0.1 then 0 else if c < 0.2 then 1 else if c < 0.25 then 2
      else if c < 0.27 then 3 else if c < 0.32 then 4 else if c < 0.35 then 5
      else if c < 0.45 then 6 else if c < 0.6 then 7 else 8;
    assert Breaks[k] <= c < Breaks[k + 1];
    forall k' | 0 <= k' < |Shapes| && Breaks[k'] <= c < Breaks[k' + 1]
      ensures SegmentAt(c) == Shapes[k']
    {
      assert k' == k;
    }
  }

  /** The flat stretches of the cycle. */
  lemma FlatStretches(c: real, sin: Sine)
    requires 0.0 <= c < 0.1 || 0.2 <= c < 0.25 || 0.35 <= c < 0.45 || 0.6 <= c < 1.0
    ensures Wave(c, sin) == 0.0
  {
  }

  /** The two rounded humps stay within their amplitudes: 5 for the P wave, 8 for the T wave. */
  lemma WaveBumps(c: real, sin: Sine)
    ensures 0.1 <= c < 0.2 ==> -5.0 <= Wave(c, sin) <= 5.0
    ensures 0.45 <= c < 0.6 ==> -8.0 <= Wave(c, sin) <= 8.0
  {
  }

  /** The three straight pieces: their ranges, and how they join at 0.27 and 0.32. */
  lemma LinearPieces(c: real, sin: Sine)
    ensures 0.25 <= c < 0.27 ==> -4.0 < Wave(c, sin) <= 0.0
    ensures 0.27 <= c < 0.32 ==> -4.0 <= Wave(c, sin) < 36.0
    ensures 0.32 <= c < 0.35 ==> 21.0 < Wave(c, sin) <= 36.0
    ensures SegmentValue(QWave, 0.25, sin) == 0.0
    ensures SegmentValue(QWave, 0.27, sin) == -4.0 == SegmentValue(RSpike, 0.27, sin)
    ensures SegmentValue(RSpike, 0.32, sin) == 36.0 == SegmentValue(SRecovery, 0.32, sin)
  {
  }

  /** The fall from the peak is cut off at 0.35: it has come down only to 21
      when the trace drops back to the line. */
  lemma RecoveryCutOff(sin: Sine)
    ensures SegmentValue(SRecovery, 0.35, sin) == 21.0
    ensures Wave(0.35, sin) == 0.0
  {
  }

  // The crisis rhythm

  /** The three erratic patterns of the crisis rhythm. */
  datatype CrisisPattern = WideNoise | FastSine | NarrowNoise

  /** The pattern for a wall-clock reading in milliseconds: the two-second
      bucket `floor(now / 2000)` taken modulo 3 with JavaScript's `%`. */
  function PatternAt(now: int): (p: CrisisPattern)
    ensures 0 <= now ==> (p == WideNoise <==> (now / 2000) % 3 == 0)
    ensures 0 <= now ==> (p == FastSine <==> (now / 2000) % 3 == 1)
    ensures 0 <= now ==> (p == NarrowNoise <==> (now / 2000) % 3 == 2)
  {
    var k := Rem(now / 2000, 3);
    if k == 0 then WideNoise else if k == 1 then FastSine else NarrowNoise
  }

  function NextPattern(p: CrisisPattern): CrisisPattern {
    match p
    case WideNoise => FastSine
    case FastSine => NarrowNoise
    case NarrowNoise => WideNoise
  }

  /** The pattern holds for a whole two-second bucket. */
  lemma PatternStableWithinBucket(now: int, now': int)
    requires now / 2000 == now' / 2000
    ensures PatternAt(now) == PatternAt(now')
  {
  }

  /** From the epoch on, the patterns take turns every two seconds, so any
      stretch of more than two seconds shows at least two of them. */
  lemma PatternsRotate(now: int)
    requires 0 <= now
    ensures PatternAt(now + 2000) == NextPattern(PatternAt(now))
    ensures PatternAt(now + 2000) != PatternAt(now)
    ensures PatternAt(now + 6000) == PatternAt(now)
  {
  }

  /** Before the epoch JavaScript's `%` yields 0, -1 or -2, so the fast sine never shows. */
  lemma NoFastSineBeforeEpoch(now: int)
    requires now < 0
    ensures PatternAt(now) != FastSine
  {
  }

  /** One crisis sample; `random` is the value drawn from `Math.random()`. */
  function CrisisSample(p: CrisisPattern, t: real, random: real, sin: Sine): (v: real)
    ensures p == FastSine ==> -20.0 <= v <= 20.0
    ensures p == WideNoise && 0.0 <= random < 1.0 ==> -22.5 <= v < 22.5
    ensures p == NarrowNoise && 0.0 <= random < 1.0 ==> -2.5 <= v < 2.5
  {
    match p
    case WideNoise => (random - 0.5) * 45.0
    case FastSine => sin(t * 60.0) * 20.0
    case NarrowNoise => (random - 0.5) * 5.0
  }

  /** The generator: the sample for phase `t`. The rate `bpm` is accepted but not used. */
  function Heartbeat(t: real, bpm: real, isCrisis: bool, now: int, random: real, sin: Sine): (v: real)
    ensures !isCrisis ==> -8.0 <= v <= 36.0
    ensures isCrisis && 0.0 <= random < 1.0 ==> -22.5 <= v < 22.5
  {
    if isCrisis then CrisisSample(PatternAt(now), t, random, sin)
    else Wave(Mod1(t), sin)
  }

  /** A crisis sample comes from the pattern the clock selects, within that
      pattern's band; the phase matters only to the fast sine. */
  lemma CrisisFollowsClock(t: real, t': real, bpm: real, now: int, random: real, sin: Sine)
    requires 0.0 <= random < 1.0
    ensures PatternAt(now) == WideNoise ==> -22.5 <= Heartbeat(t, bpm, true, now, random, sin) < 22.5
    ensures PatternAt(now) == FastSine ==> -20.0 <= Heartbeat(t, bpm, true, now, random, sin) <= 20.0
    ensures PatternAt(now) == NarrowNoise ==> -2.5 <= Heartbeat(t, bpm, true, now, random, sin) < 2.5
    ensures PatternAt(now) != FastSine ==>
      Heartbeat(t, bpm, true, now, random, sin) == Heartbeat(t', bpm, true, now, random, sin)
  {
  }

  /** A regular sample depends on the phase alone: not on the rate, the clock or the random draw. */
  lemma RegularSampleDependsOnPhaseOnly(t: real, bpm: real, bpm': real, now: int, now': int,
                                        random: real, random': real, sin: Sine)
    ensures Heartbeat(t, bpm, false, now, random, sin) == Heartbeat(t, bpm', false, now', random', sin)
    ensures 0.0 <= t < 1.0 ==> Heartbeat(t, bpm, false, now, random, sin) == Wave(t, sin)
  {
    if 0.0 <= t < 1.0 {
      Mod1OfUnit(t);
    }
  }

  /** For non-negative phases the regular waveform repeats every whole cycle. */
  lemma RegularSamplePeriodic(t: real, bpm: real, now: int, random: real, sin: Sine)
    requires 0.0 <= t
    ensures Heartbeat(t + 1.0, bpm, false, now, random, sin) == Heartbeat(t, bpm, false, now, random, sin)
  {
    Mod1Periodic(t);
  }
}
