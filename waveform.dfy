/**
 * The arithmetic of the waveform-video renderer (song_to_waveform.py): how long the video is,
 * which samples each frame shows, how a long window is thinned to the display points, how the
 * points become line segments, and how a rendered ARGB canvas becomes an RGB frame.
 *
 * Durations and timestamps are seconds as `real` (Python floats, without their rounding).
 * Samples are amplitudes as `real`.
 */
module Waveform {
  import opened Wrappers

  /** How many points a frame is thinned to when its window is longer (num_display_points). */
  const DisplayPoints: nat := 1000

  /** Length of the ten-second preview, in seconds. */
  const PreviewSeconds: real := 10.0

  function MinReal(a: real, b: real): real { if a <= b then a else b }
  function MinInt(a: int, b: int): int { if a <= b then a else b }

  /** Python's int() applied to a float: truncation toward zero. */
  function Trunc(x: real): (r: int)
    ensures 0.0 <= x ==> 0 <= r && r as real <= x < r as real + 1.0
    ensures x < 0.0 ==> r <= 0 && x <= r as real < x + 1.0
  {
    if x >= 0.0 then x.Floor else -((-x).Floor)
  }

  /** Length in seconds of n samples at sr Hz, as librosa.get_duration gives it for a mono signal. */
  function AudioDuration(n: nat, sr: nat): real
    requires sr > 0
  {
    n as real / sr as real
  }

  /** int(seconds * sr): the whole number of samples in `seconds` of audio at sr Hz. */
  function SamplesIn(seconds: real, sr: nat): (r: nat)
    requires seconds >= 0.0
    ensures r as real <= seconds * sr as real < r as real + 1.0
  {
    Trunc(seconds * sr as real)
  }

  // ---------------------------------------------------------------------------------------
  // Duration clamp and ten-second preview
  // ---------------------------------------------------------------------------------------

  /** The video length and the samples kept, as the start of create_waveform_video decides them. */
  datatype Plan = Plan(videoDuration: real, samples: seq<real>)

  /**
   * The video never runs longer than the audio; without a request it is exactly as long; a
   * request is clamped; the preview mode keeps at most the first 10 * sr samples and changes
   * nothing else about them.
   */
  function PlanVideo(y: seq<real>, sr: nat, requested: Option<real>, firstTenSeconds: bool): (p: Plan)
    requires sr > 0
    ensures p.videoDuration <= AudioDuration(|y|, sr)
    ensures p.samples <= y
    ensures firstTenSeconds ==> |p.samples| == MinInt(|y|, 10 * sr)
    ensures !firstTenSeconds ==> p.samples == y
    ensures firstTenSeconds ==>
      p.videoDuration <= PreviewSeconds
      && (p.videoDuration == PreviewSeconds || p.videoDuration == AudioDuration(|y|, sr))
    ensures !firstTenSeconds && requested.None? ==> p.videoDuration == AudioDuration(|y|, sr)
    ensures !firstTenSeconds && requested.Some? ==>
      p.videoDuration <= requested.value
      && (p.videoDuration == requested.value || p.videoDuration == AudioDuration(|y|, sr))
  {
    var audioDuration := AudioDuration(|y|, sr);
    if firstTenSeconds then
      var maxSamples := Trunc(PreviewSeconds * sr as real);
      assert maxSamples == 10 * sr;
      Plan(MinReal(PreviewSeconds, audioDuration), if |y| > maxSamples then y[..maxSamples] else y)
    else if requested.None? then
      Plan(audioDuration, y)
    else
      Plan(MinReal(requested.value, audioDuration), y)
  }

  /** a / c <= b exactly when a <= b * c, for a positive c. */
  lemma DivLeIff(a: real, b: real, c: real)
    requires c > 0.0
    ensures a / c <= b <==> a <= b * c
  {
    assert a / c * c == a;
    if a / c <= b {
      assert a / c * c <= b * c;
    }
  }

  /**
   * In preview mode, and when no duration is requested, the samples kept last exactly as long as
   * the video: the preview cut and the clamp agree.
   */
  lemma PlanSamplesMatchVideo(y: seq<real>, sr: nat, requested: Option<real>, firstTenSeconds: bool)
    requires sr > 0
    requires firstTenSeconds || requested.None?
    ensures var p := PlanVideo(y, sr, requested, firstTenSeconds);
      AudioDuration(|p.samples|, sr) == p.videoDuration
  {
    var p := PlanVideo(y, sr, requested, firstTenSeconds);
    if firstTenSeconds {
      var s := sr as real;
      DivLeIff(|y| as real, 10.0, s);
      if |y| > 10 * sr {
        assert (10 * sr) as real == 10.0 * s;
        assert (10.0 * s) / s == 10.0;
      }
    }
  }

  /**
   * Duration of the audio track attached to the video: the clip is cut at 10 s only in preview
   * mode and only when the audio is longer than that (lines 133-135).
   */
  function AudioTrackDuration(n: nat, sr: nat, firstTenSeconds: bool): (d: real)
    requires sr > 0
    ensures d <= AudioDuration(n, sr)
    ensures firstTenSeconds ==> d == MinReal(PreviewSeconds, AudioDuration(n, sr))
    ensures !firstTenSeconds ==> d == AudioDuration(n, sr)
  {
    var audioDuration := AudioDuration(n, sr);
    if firstTenSeconds && audioDuration > PreviewSeconds then PreviewSeconds else audioDuration
  }

  /** In preview mode and without a request, the audio track is exactly as long as the video. */
  lemma AudioTrackMatchesVideo(y: seq<real>, sr: nat, requested: Option<real>, firstTenSeconds: bool)
    requires sr > 0
    requires firstTenSeconds || requested.None?
    ensures AudioTrackDuration(|y|, sr, firstTenSeconds)
         == PlanVideo(y, sr, requested, firstTenSeconds).videoDuration
  {
  }

  /**
   * A requested duration shorter than the audio shortens the video but not the audio track:
   * the audio attached to the clip is the whole file.
   */
  lemma RequestedDurationKeepsWholeAudio(y: seq<real>, sr: nat, requested: real)
    requires sr > 0
    requires requested < AudioDuration(|y|, sr)
    ensures PlanVideo(y, sr, Some(requested), false).videoDuration == requested
    ensures AudioTrackDuration(|y|, sr, false) > PlanVideo(y, sr, Some(requested), false).videoDuration
  {
  }

  // ---------------------------------------------------------------------------------------
  // Frame count and frame times
  // ---------------------------------------------------------------------------------------

  /**
   * total_frames = int(video_duration * fps). A zero frame rate never gets here: int(sr / fps)
   * just before it divides by zero.
   */
  function TotalFrames(videoDuration: real, fps: nat): (frames: int)
    requires fps > 0
    ensures videoDuration >= 0.0 ==>
      0 <= frames && frames as real <= videoDuration * fps as real < frames as real + 1.0
  {
    Trunc(videoDuration * fps as real)
  }

  /** Every frame index below the frame count has its timestamp i / fps inside [0, duration). */
  lemma FrameTimesWithinVideo(videoDuration: real, fps: nat, i: nat)
    requires videoDuration >= 0.0 && fps > 0
    requires i < TotalFrames(videoDuration, fps)
    ensures 0.0 <= i as real / fps as real < videoDuration
  {
    var f := fps as real;
    assert i as real < videoDuration * f;
    DivLeIff(videoDuration * f, i as real, f);
    MulDivCancel(videoDuration, f);
  }

  /** Multiplying by f and dividing by f again gives back the same value. */
  lemma MulDivCancel(a: real, f: real)
    requires f > 0.0
    ensures a * f / f == a
  {
  }

  /** A whole number of seconds gives exactly seconds * fps frames. */
  lemma TotalFramesWholeSeconds(seconds: nat, fps: nat)
    requires fps > 0
    ensures TotalFrames(seconds as real, fps) == seconds * fps
  {
    assert seconds as real * fps as real == (seconds * fps) as real;
  }

  // ---------------------------------------------------------------------------------------
  // Window mapper
  // ---------------------------------------------------------------------------------------

  /** First sample of the window around sample `cur`: max(0, cur - half). */
  function WindowStart(cur: nat, half: nat): nat
  {
    if cur >= half then cur - half else 0
  }

  /** One past the last sample of the window: min(len(y), cur + half). */
  function WindowEnd(n: nat, cur: nat, half: nat): nat
  {
    MinInt(n, cur + half)
  }

  /**
   * y[start:end] for the window of `samplesPerSegment` samples centred on sample `cur`, with
   * half = samplesPerSegment // 2. The window is clamped to the signal at both ends, never padded
   * or wrapped; it is empty, without an error, when the signal is empty, when half is zero, or
   * when `cur` lies past the end by half or more.
   */
  function Window(y: seq<real>, samplesPerSegment: nat, cur: nat): (w: seq<real>)
    ensures var half := samplesPerSegment / 2;
      && |w| <= 2 * half
      && (half <= cur && cur + half <= |y| ==> |w| == 2 * half)
      && (|w| == 0 <==> (|y| == 0 || half == 0 || cur >= |y| + half))
      && (|w| > 0 ==> |w| == WindowEnd(|y|, cur, half) - WindowStart(cur, half))
      && forall k :: 0 <= k < |w| ==>
           WindowStart(cur, half) + k < |y| && w[k] == y[WindowStart(cur, half) + k]
  {
    var half := samplesPerSegment / 2;
    var start := WindowStart(cur, half);
    var end := WindowEnd(|y|, cur, half);
    if start < end then y[start..end] else []
  }

  // ---------------------------------------------------------------------------------------
  // Downsampler
  // ---------------------------------------------------------------------------------------

  /**
   * The index chosen for display point i from a window of n samples:
   * np.linspace(0, n - 1, 1000, dtype=int)[i], modelled as the exact floor of i * (n - 1) / 999.
   * It always lies inside the window.
   */
  function PickIndex(i: nat, n: nat): (k: nat)
    requires i < DisplayPoints && n >= 1
    ensures k < n
  {
    MulLeft(i, DisplayPoints - 1, n - 1);
    QuotientAtMost(i * (n - 1), n - 1);
    i * (n - 1) / (DisplayPoints - 1)
  }

  /** The first pick is sample 0 and the last pick is the last sample. */
  lemma PickIndexEnds(n: nat)
    requires n >= 1
    ensures PickIndex(0, n) == 0
    ensures PickIndex(DisplayPoints - 1, n) == n - 1
  {
  }

  /** Multiplying both sides of x <= y by a natural number keeps the order. */
  lemma MulLeft(x: nat, y: nat, m: nat)
    requires x <= y
    ensures x * m <= y * m
  {
    var k := y - x;
    assert y * m == x * m + k * m;
  }

  /**
   * For a window longer than the display, the picks are strictly increasing and stay inside
   * the window, so no sample is picked twice and none is invented.
   */
  lemma PickIndexStrictlyIncreasing(n: nat, i: nat, j: nat)
    requires n > DisplayPoints
    requires i < j < DisplayPoints
    ensures PickIndex(i, n) < PickIndex(j, n) < n
  {
    var m := n - 1;
    MulLeft(i + 1, j, m);
    assert (i + 1) * m == i * m + m;
    StepRaisesQuotient(i * m, j * m);
  }

  /** Adding at least the divisor raises the quotient by 999 at least one. */
  lemma StepRaisesQuotient(a: nat, b: nat)
    requires b >= a + (DisplayPoints - 1)
    ensures a / (DisplayPoints - 1) < b / (DisplayPoints - 1)
  {
  }

  /** a <= 999 * m gives a / 999 <= m. */
  lemma QuotientAtMost(a: nat, m: nat)
    requires a <= (DisplayPoints - 1) * m
    ensures a / (DisplayPoints - 1) <= m
  {
  }

  /**
   * A window longer than DisplayPoints becomes exactly DisplayPoints samples, each an original
   * sample picked at PickIndex (floor-index selection: a sample is picked, never averaged); a shorter window is kept
   * whole.
   */
  function Downsample(segment: seq<real>): (r: seq<real>)
    ensures |segment| <= DisplayPoints ==> r == segment
    ensures |segment| > DisplayPoints ==>
      && |r| == DisplayPoints
      && forall k :: 0 <= k < DisplayPoints ==> r[k] == segment[PickIndex(k, |segment|)]
  {
    if |segment| > DisplayPoints then
      seq(DisplayPoints, i requires 0 <= i < DisplayPoints => segment[PickIndex(i, |segment|)])
    else
      segment
  }

  /** Thinning keeps the window's first and last samples. */
  lemma DownsampleKeepsEnds(segment: seq<real>)
    requires |segment| > DisplayPoints
    ensures Downsample(segment)[0] == segment[0]
    ensures Downsample(segment)[DisplayPoints - 1] == segment[|segment| - 1]
  {
    PickIndexEnds(|segment|);
  }

  // ---------------------------------------------------------------------------------------
  // Segment builder
  // ---------------------------------------------------------------------------------------

  datatype Point = Point(x: real, y: real)
  datatype Line = Line(from: Point, to: Point)

  /** np.linspace(0, 1, count)[i]: 0 for a single point, otherwise i / (count - 1). */
  function XCoord(i: nat, count: nat): real
  {
    if count <= 1 then 0.0 else i as real / (count - 1) as real
  }

  /**
   * The line collection of one frame: point i is (x_i, segment[i]) with x_i the i-th of
   * len(segment) evenly spaced values, and line i joins point i to point i + 1, so there are
   * max(0, len(segment) - 1) lines forming one connected polyline.
   */
  function LineSegments(segment: seq<real>): (lines: seq<Line>)
    ensures |lines| == if |segment| == 0 then 0 else |segment| - 1
    ensures forall i :: 0 <= i < |lines| ==>
      && lines[i].from == Point(XCoord(i, |segment|), segment[i])
      && lines[i].to == Point(XCoord(i + 1, |segment|), segment[i + 1])
    ensures forall i :: 0 < i < |lines| ==> lines[i].from == lines[i - 1].to
  {
    var points := seq(|segment|, i requires 0 <= i < |segment| => Point(XCoord(i, |segment|), segment[i]));
    if |points| == 0 then []
    else seq(|points| - 1, i requires 0 <= i < |points| - 1 => Line(points[i], points[i + 1]))
  }

  /** The polyline runs from x = 0 to x = 1 in equal steps of 1 / (len(segment) - 1). */
  lemma LineSegmentsSpanUnitInterval(segment: seq<real>)
    requires |segment| >= 2
    ensures var lines := LineSegments(segment);
      && lines[0].from.x == 0.0
      && lines[|lines| - 1].to.x == 1.0
      && forall i :: 0 <= i < |lines| ==>
           lines[i].to.x - lines[i].from.x == 1.0 / (|segment| - 1) as real
  {
    var n := |segment|;
    XCoordLast(n);
    forall i | 0 <= i < n - 1
      ensures XCoord(i + 1, n) - XCoord(i, n) == 1.0 / (n - 1) as real
    {
      XCoordStep(i, n);
    }
  }

  /** The last of n >= 2 evenly spaced values in [0, 1] is 1. */
  lemma XCoordLast(n: nat)
    requires n >= 2
    ensures XCoord(n - 1, n) == 1.0
  {
    var d := (n - 1) as real;
    assert XCoord(n - 1, n) == d / d;
    DivSelf(d);
  }

  /** A positive value divided by itself is 1. */
  lemma DivSelf(d: real)
    requires d > 0.0
    ensures d / d == 1.0
  {
  }

  /** Consecutive values of np.linspace(0, 1, n) lie 1 / (n - 1) apart. */
  lemma XCoordStep(i: nat, n: nat)
    requires n >= 2
    ensures XCoord(i + 1, n) - XCoord(i, n) == 1.0 / (n - 1) as real
  {
    var d := (n - 1) as real;
    assert XCoord(i + 1, n) == (i as real + 1.0) / d;
    assert XCoord(i, n) == i as real / d;
    StepOverDivisor(i as real, d);
  }

  /** (a + 1) / d - a / d == 1 / d. */
  lemma StepOverDivisor(a: real, d: real)
    requires d > 0.0
    ensures (a + 1.0) / d - a / d == 1.0 / d
  {
  }

  // ---------------------------------------------------------------------------------------
  // One frame
  // ---------------------------------------------------------------------------------------

  /** The lines drawn for the frame whose current sample is `cur` (make_frame without drawing). */
  function FrameLines(y: seq<real>, samplesPerSegment: nat, cur: nat): (lines: seq<Line>)
    ensures |lines| < DisplayPoints
    ensures |Window(y, samplesPerSegment, cur)| == 0 ==> lines == []
  {
    LineSegments(Downsample(Window(y, samplesPerSegment, cur)))
  }

  /** v is one of the signal's samples. */
  predicate IsSample(v: real, y: seq<real>)
  {
    exists j :: 0 <= j < |y| && v == y[j]
  }

  /** Both ends of every line of a frame are amplitudes taken from the signal's own samples. */
  lemma FrameVerticesAreSamples(y: seq<real>, samplesPerSegment: nat, cur: nat, i: nat)
    requires i < |FrameLines(y, samplesPerSegment, cur)|
    ensures IsSample(FrameLines(y, samplesPerSegment, cur)[i].from.y, y)
    ensures IsSample(FrameLines(y, samplesPerSegment, cur)[i].to.y, y)
  {
    var d := Downsample(Window(y, samplesPerSegment, cur));
    assert FrameLines(y, samplesPerSegment, cur)[i].from.y == d[i];
    assert FrameLines(y, samplesPerSegment, cur)[i].to.y == d[i + 1];
    DisplayedIsSample(y, samplesPerSegment, cur, i);
    DisplayedIsSample(y, samplesPerSegment, cur, i + 1);
  }

  /** Each displayed point of a frame is one of the samples in the signal. */
  lemma DisplayedIsSample(y: seq<real>, samplesPerSegment: nat, cur: nat, k: nat)
    requires k < |Downsample(Window(y, samplesPerSegment, cur))|
    ensures IsSample(Downsample(Window(y, samplesPerSegment, cur))[k], y)
  {
    var w := Window(y, samplesPerSegment, cur);
    var start := WindowStart(cur, samplesPerSegment / 2);
    if |w| > DisplayPoints {
      var p := PickIndex(k, |w|);
      assert Downsample(w)[k] == w[p] == y[start + p];
    } else {
      assert Downsample(w)[k] == w[k] == y[start + k];
    }
  }

  /**
   * make_frame(t) without drawing: the current sample is int(t * sr) and the window is
   * int(segment_length * sr) samples wide; every vertex of the lines drawn is a signal sample.
   */
  function MakeFrame(y: seq<real>, sr: nat, segmentLength: real, t: real): (lines: seq<Line>)
    requires segmentLength >= 0.0 && t >= 0.0
    ensures |lines| < DisplayPoints
    ensures forall i :: 0 <= i < |lines| ==> IsSample(lines[i].from.y, y) && IsSample(lines[i].to.y, y)
  {
    var samplesPerSegment := SamplesIn(segmentLength, sr);
    var cur := SamplesIn(t, sr);
    FrameVerticesAreSamplesAll(y, samplesPerSegment, cur);
    FrameLines(y, samplesPerSegment, cur)
  }

  /** FrameVerticesAreSamples for every line of one frame. */
  lemma FrameVerticesAreSamplesAll(y: seq<real>, samplesPerSegment: nat, cur: nat)
    ensures var lines := FrameLines(y, samplesPerSegment, cur);
      forall i :: 0 <= i < |lines| ==> IsSample(lines[i].from.y, y) && IsSample(lines[i].to.y, y)
  {
    forall i | 0 <= i < |FrameLines(y, samplesPerSegment, cur)| {
      FrameVerticesAreSamples(y, samplesPerSegment, cur, i);
    }
  }

  /** Once t is half a window past the end of the audio, the frame draws no line. */
  lemma MakeFrameEmptyPastEnd(y: seq<real>, sr: nat, segmentLength: real, t: real)
    requires segmentLength >= 0.0 && t >= 0.0
    requires t * sr as real >= (|y| + SamplesIn(segmentLength, sr) / 2) as real
    ensures MakeFrame(y, sr, segmentLength, t) == []
  {
    var half := SamplesIn(segmentLength, sr) / 2;
    var cur := SamplesIn(t, sr);
    assert (|y| + half) as real < cur as real + 1.0;
    assert cur >= |y| + half;
    assert |Window(y, SamplesIn(segmentLength, sr), cur)| == 0;
  }

  // ---------------------------------------------------------------------------------------
  // ARGB canvas to RGB frame
  // ---------------------------------------------------------------------------------------

  newtype uint8 = x: int | 0 <= x < 256

  /** np.roll(pixel, -1) on one 4-byte pixel: every channel moves one place left, the first wraps. */
  function RollLeft(pixel: seq<uint8>): (r: seq<uint8>)
    requires |pixel| == 4
    ensures |r| == 4 && forall c :: 0 <= c < 4 ==> r[c] == pixel[(c + 1) % 4]
  {
    pixel[1..] + pixel[..1]
  }

  /**
   * fig_to_numpy's conversion of the canvas bytes, pixel by pixel in row-major order: roll each
   * ARGB pixel left and keep its first three channels.
   */
  function ArgbToRgb(buf: seq<uint8>): (rgb: seq<uint8>)
    requires |buf| % 4 == 0
    ensures |rgb| == |buf| / 4 * 3
    decreases |buf|
  {
    if |buf| == 0 then [] else RollLeft(buf[..4])[..3] + ArgbToRgb(buf[4..])
  }

  /** Channel c of RGB pixel i is byte c + 1 of ARGB pixel i: red, green, blue in order, alpha dropped. */
  lemma {:induction false} ArgbToRgbChannels(buf: seq<uint8>, i: nat, c: nat)
    requires |buf| % 4 == 0
    requires i < |buf| / 4 && c < 3
    ensures ArgbToRgb(buf)[3 * i + c] == buf[4 * i + c + 1]
    decreases |buf|
  {
    var head := RollLeft(buf[..4])[..3];
    assert ArgbToRgb(buf) == head + ArgbToRgb(buf[4..]);
    if i > 0 {
      ArgbToRgbChannels(buf[4..], i - 1, c);
      assert ArgbToRgb(buf)[3 * i + c] == ArgbToRgb(buf[4..])[3 * (i - 1) + c];
    }
  }
}
