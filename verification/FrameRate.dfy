/** The prediction of the frame rate from timestamps, over exact reals; the frame counter is an
    8-bit number. */
module FrameRate {

  const MAX_FPS := 255.0
  const INITIAL_FPS := 30.0

  datatype Meter = Meter(fps: nat, predicted: real, lastPrint: int, lastTimestamp: int, perSecond: int)

  function Initial(now: int): Meter {
    Meter(0, INITIAL_FPS, now, 0, 0)
  }

  /** Dividing by a frame counter that wrapped to zero gives infinity (whose inverse is zero) for a
      positive sum, and otherwise nothing that passes the comparison. */
  function Predict(predicted: real, perSecond: int, fps: nat): real {
    if fps == 0 then if perSecond > 0 then 0.0 else predicted
    else
      var average := perSecond as real / fps as real;
      if average > 1000.0 / MAX_FPS then 1000.0 / average else predicted
  }

  predicate WindowOver(m: Meter, now: int) {
    now - m.lastPrint >= 1000
  }

  function Accumulated(m: Meter, timestamp: int): int {
    if m.lastTimestamp != 0 then m.perSecond + (timestamp - m.lastTimestamp) else m.perSecond
  }

  /** UpdatePredictedFps for one frame. */
  function Update(m: Meter, timestamp: int, now: int): Meter {
    var fps, sum := (m.fps + 1) % 256, Accumulated(m, timestamp);
    if WindowOver(m, now) then Meter(fps, Predict(m.predicted, sum, fps), m.lastPrint, timestamp, 0)
    else Meter(fps, m.predicted, m.lastPrint, timestamp, sum)
  }

  /** The clock readings of one agora_send_video: in the update, at the second comparison, and
      when the new window starts. */
  datatype Frame = Frame(timestamp: int, first: int, second: int, third: int)

  function Send(m: Meter, f: Frame): Meter {
    var u := Update(m, f.timestamp, f.first);
    if WindowOver(u, f.second) then u.(lastPrint := f.third, fps := 0) else u
  }

  /** Time per frame, 1000 / predicted, exists and exceeds 1000 / 255 ms. */
  predicate Usable(predicted: real) {
    0.0 < predicted < 255.0
  }

  lemma Monotone(a: real, b: real, x: real)
    requires x > 0.0
    ensures a <= b ==> a * x <= b * x
  {
  }

  lemma Reciprocal(x: real)
    requires x > 1000.0 / MAX_FPS
    ensures Usable(1000.0 / x)
  {
    var y := 1000.0 / x;
    assert y * x == 1000.0;
    Monotone(MAX_FPS, y, x);
    Monotone(y, 0.0, x);
  }

  /** One frame keeps the prediction usable, unless a window ends on a frame counter that wrapped
      to zero while the timestamps had advanced. */
  lemma SendKeepsUsable(m: Meter, f: Frame)
    requires Usable(m.predicted)
    ensures Usable(Send(m, f).predicted)
       <==> !(f.first - m.lastPrint >= 1000 && (m.fps + 1) % 256 == 0 && Accumulated(m, f.timestamp) > 0)
  {
    var fps, sum := (m.fps + 1) % 256, Accumulated(m, f.timestamp);
    if fps != 0 && sum as real / fps as real > 1000.0 / MAX_FPS {
      Reciprocal(sum as real / fps as real);
    }
  }

  lemma SendKeepsRange(m: Meter, f: Frame)
    requires Usable(m.predicted) || m.predicted == 0.0
    ensures Usable(Send(m, f).predicted) || Send(m, f).predicted == 0.0
  {
    var fps, sum := (m.fps + 1) % 256, Accumulated(m, f.timestamp);
    if fps != 0 && sum as real / fps as real > 1000.0 / MAX_FPS {
      Reciprocal(sum as real / fps as real);
    }
  }

  /** A run, with the true number of frames since the window started. */
  function Run(now: int, frames: seq<Frame>): (Meter, nat) {
    if frames == [] then (Initial(now), 0)
    else
      var n := |frames| - 1;
      var (m, count) := Run(now, frames[..n]);
      var f := frames[n];
      (Send(m, f), if f.second - m.lastPrint >= 1000 then 0 else count + 1)
  }

  function Predicted(now: int, frames: seq<Frame>): real {
    Run(now, frames).0.predicted
  }

  /** The frame ends a window on a multiple of 256 frames although the timestamps have advanced. */
  predicate Spoils(m: Meter, count: nat, f: Frame) {
    f.first - m.lastPrint >= 1000 && (count + 1) % 256 == 0 && Accumulated(m, f.timestamp) > 0
  }

  predicate NoneSpoils(now: int, frames: seq<Frame>) {
    forall i :: 0 <= i < |frames| ==> !Spoils(Run(now, frames[..i]).0, Run(now, frames[..i]).1, frames[i])
  }

  predicate AllUsable(now: int, frames: seq<Frame>) {
    forall i :: 0 <= i <= |frames| ==> Usable(Predicted(now, frames[..i]))
  }

  lemma NextCount(n: nat)
    ensures (n % 256 + 1) % 256 == (n + 1) % 256
  {
  }

  lemma SendCounts(m: Meter, f: Frame, count: nat)
    requires m.fps == count % 256
    ensures Send(m, f).fps == (if f.second - m.lastPrint >= 1000 then 0 else (count + 1) % 256)
  {
    NextCount(count);
  }

  /** In every run the counter is the number of frames in the window modulo 256, and the prediction
      is usable or zero. */
  lemma {:induction false} RunCounts(now: int, frames: seq<Frame>)
    ensures var (m, count) := Run(now, frames);
            m.fps == count % 256 && (Usable(m.predicted) || m.predicted == 0.0)
  {
    if frames == [] {
    } else {
      var n := |frames| - 1;
      RunCounts(now, frames[..n]);
      SendCounts(Run(now, frames[..n]).0, frames[n], Run(now, frames[..n]).1);
      SendKeepsRange(Run(now, frames[..n]).0, frames[n]);
    }
  }

  lemma PrefixesOfFront(frames: seq<Frame>)
    requires frames != []
    ensures var n := |frames| - 1;
            forall i :: 0 <= i <= n ==> frames[..n][..i] == frames[..i]
    ensures frames[..|frames|] == frames
  {
  }

  lemma FrontIsUsable(now: int, frames: seq<Frame>)
    requires frames != []
    ensures var front := frames[..|frames| - 1];
            && (AllUsable(now, frames) <==> AllUsable(now, front) && Usable(Predicted(now, frames)))
            && (AllUsable(now, front) ==> Usable(Predicted(now, front)))
  {
    PrefixesOfFront(frames);
  }

  lemma FrontSpoilsNot(now: int, frames: seq<Frame>)
    requires frames != []
    ensures var front := frames[..|frames| - 1];
            NoneSpoils(now, frames) <==>
            NoneSpoils(now, front) && !Spoils(Run(now, front).0, Run(now, front).1, frames[|frames| - 1])
  {
    PrefixesOfFront(frames);
  }

  lemma LastOfRun(now: int, frames: seq<Frame>)
    requires frames != [] && Usable(Predicted(now, frames[..|frames| - 1]))
    ensures var front := frames[..|frames| - 1];
            Usable(Predicted(now, frames))
            <==> !Spoils(Run(now, front).0, Run(now, front).1, frames[|frames| - 1])
  {
    var (m, count) := Run(now, frames[..|frames| - 1]);
    RunCounts(now, frames[..|frames| - 1]);
    NextCount(count);
    SendKeepsUsable(m, frames[|frames| - 1]);
  }

  /** Whatever the timestamps, all predictions of a run are usable if and only if no window ends on
      a multiple of 256 frames with advanced timestamps. */
  lemma {:induction false} UsableExactlyWhen(now: int, frames: seq<Frame>)
    ensures AllUsable(now, frames) <==> NoneSpoils(now, frames)
  {
    if frames == [] {
      assert frames[..0] == [];
    } else {
      UsableExactlyWhen(now, frames[..|frames| - 1]);
      FrontIsUsable(now, frames);
      FrontSpoilsNot(now, frames);
      if AllUsable(now, frames[..|frames| - 1]) {
        LastOfRun(now, frames);
      }
    }
  }

  /** No measuring window holds more than 255 frames. */
  predicate WindowsFit(now: int, frames: seq<Frame>) {
    forall i :: 0 <= i < |frames| ==> Run(now, frames[..i]).1 < 255
  }

  /** In particular when no window holds more than 255 frames. */
  lemma RunStaysUsable(now: int, frames: seq<Frame>)
    requires WindowsFit(now, frames)
    ensures AllUsable(now, frames)
  {
    UsableExactlyWhen(now, frames);
  }

  // ----- what the prediction is -----

  function Feed(m: Meter, frames: seq<Frame>): Meter {
    if frames == [] then m else Send(Feed(m, frames[..|frames| - 1]), frames[|frames| - 1])
  }

  /** The timestamp the differences start from: that of the last frame before, or of the first one
      if there was none (which is what a timestamp of zero stands for). */
  function Origin(m: Meter, frames: seq<Frame>): int {
    if frames == [] then m.lastTimestamp
    else
      var before := Origin(m, frames[..|frames| - 1]);
      if before != 0 then before else frames[|frames| - 1].timestamp
  }

  function LastTimestamp(m: Meter, frames: seq<Frame>): int {
    if frames == [] then m.lastTimestamp else frames[|frames| - 1].timestamp
  }

  /** Timestamps of zero come first, if at all. */
  predicate ZerosFirst(m: Meter, frames: seq<Frame>) {
    forall i :: 0 <= i < |frames| ==> frames[i].timestamp == 0 ==> Origin(m, frames[..i]) == 0
  }

  /** Frames at which neither comparison finds the window over. */
  predicate InWindow(m: Meter, frames: seq<Frame>) {
    forall i :: 0 <= i < |frames| ==> frames[i].first - m.lastPrint < 1000 && frames[i].second - m.lastPrint < 1000
  }

  lemma ZerosFirstFront(m: Meter, frames: seq<Frame>)
    requires frames != [] && ZerosFirst(m, frames)
    ensures ZerosFirst(m, frames[..|frames| - 1])
  {
    var front := frames[..|frames| - 1];
    forall i | 0 <= i < |front|
      ensures front[i].timestamp == 0 ==> Origin(m, front[..i]) == 0
    {
      assert front[..i] == frames[..i] && front[i] == frames[i];
    }
  }

  /** Inside a window the sum telescopes, on top of what an earlier window left. */
  lemma {:induction false} FeedAccumulates(m: Meter, frames: seq<Frame>)
    requires m.fps == 0 && InWindow(m, frames) && ZerosFirst(m, frames)
    ensures var last := LastTimestamp(m, frames);
            && Feed(m, frames) == Meter(|frames| % 256, m.predicted, m.lastPrint, last,
                                        m.perSecond + (last - Origin(m, frames)))
            && (last == 0 <==> Origin(m, frames) == 0)
  {
    if frames == [] {
    } else {
      ZerosFirstFront(m, frames);
      FeedAccumulates(m, frames[..|frames| - 1]);
    }
  }

  lemma RateOf(advance: real, n: real, average: real, rate: real)
    requires average * n == advance && rate * average == 1000.0
    ensures rate * advance == n * 1000.0
  {
    assert rate * (average * n) == rate * average * n;
  }

  /** More than 255 frames per second, as averages and multiplied out. */
  lemma TooFast(advance: real, n: real, average: real, limit: real)
    requires n > 0.0 && average * n == advance && limit * MAX_FPS == 1000.0
    ensures average > limit <==> advance * MAX_FPS > n * 1000.0
  {
    assert (average - limit) * n == advance - limit * n;
    assert limit * n * MAX_FPS == limit * MAX_FPS * n;
    if average > limit {
      assert (average - limit) * n > 0.0;
    } else {
      assert (limit - average) * n >= 0.0;
    }
  }

  /** n frames per `advance` milliseconds, unless that is 255 per second or more; then the old
      prediction stays. A count of zero gives zero for an advance. */
  predicate IsRate(r: real, before: real, advance: int, n: nat) {
    if n == 0 then r == (if advance > 0 then 0.0 else before)
    else if advance as real * 255.0 > n as real * 1000.0 then r * advance as real == n as real * 1000.0
    else r == before
  }

  lemma PredictsRate(predicted: real, advance: int, n: nat)
    ensures IsRate(Predict(predicted, advance, n), predicted, advance, n)
  {
    if n == 0 {
    } else {
      var average := advance as real / n as real;
      assert average * n as real == advance as real;
      TooFast(advance as real, n as real, average, 1000.0 / MAX_FPS);
      if average > 1000.0 / MAX_FPS {
        RateOf(advance as real, n as real, average, 1000.0 / average);
      }
    }
  }

  /** The state behind a window of n frames (modulo 256), in which the timestamps have advanced by
      `advance`. If only the second clock comparison sees the end, the counter restarts, and the
      advance is left to the next window. */
  predicate WindowEnded(r: Meter, before: real, f: Frame, seen: bool, advance: int, n: nat) {
    && r.fps == 0 && r.lastPrint == f.third && r.lastTimestamp == f.timestamp
    && if seen then r.perSecond == 0 && IsRate(r.predicted, before, advance, n)
       else r.perSecond == advance && r.predicted == before
  }

  /** The frame with which a window ends. */
  lemma EndsWindow(m: Meter, f: Frame, r: Meter, before: real, seen: bool, advance: int, n: nat)
    requires f.second - m.lastPrint >= 1000 && r == Send(m, f) && before == m.predicted
    requires seen == (f.first - m.lastPrint >= 1000) && advance == Accumulated(m, f.timestamp) && n == (m.fps + 1) % 256
    ensures WindowEnded(r, before, f, seen, advance, n)
  {
    PredictsRate(before, advance, n);
  }

  lemma FeedOneMore(m: Meter, frames: seq<Frame>, f: Frame)
    ensures Feed(m, frames + [f]) == Send(Feed(m, frames), f)
    ensures Origin(m, frames + [f]) == if Origin(m, frames) != 0 then Origin(m, frames) else f.timestamp
  {
    assert (frames + [f])[..|frames|] == frames;
  }

  lemma AdvanceOfWindow(m: Meter, frames: seq<Frame>, f: Frame)
    requires m.fps == 0 && InWindow(m, frames) && ZerosFirst(m, frames) && (f.timestamp == 0 ==> Origin(m, frames) == 0)
    ensures var before := Feed(m, frames);
            && before.predicted == m.predicted && before.lastPrint == m.lastPrint
            && before.fps == |frames| % 256
            && Accumulated(before, f.timestamp) == m.perSecond + (f.timestamp - Origin(m, frames + [f]))
  {
    FeedOneMore(m, frames, f);
    FeedAccumulates(m, frames);
  }

  /** At the end of every window, the first one included, the prediction is the 8-bit number of its
      frames divided by the advance of the timestamps (on top of what was left of the window
      before). */
  lemma PredictionIsFrameRate(m: Meter, frames: seq<Frame>, f: Frame)
    requires m.fps == 0 && InWindow(m, frames) && ZerosFirst(m, frames + [f]) && f.second - m.lastPrint >= 1000
    ensures WindowEnded(Feed(m, frames + [f]), m.predicted, f, f.first - m.lastPrint >= 1000,
                        m.perSecond + (f.timestamp - Origin(m, frames + [f])), (|frames| + 1) % 256)
  {
    ZerosFirstFront(m, frames + [f]);
    assert (frames + [f])[..|frames|] == frames;
    NextCount(|frames|);
    AdvanceOfWindow(m, frames, f);
    FeedOneMore(m, frames, f);
    EndsWindow(Feed(m, frames), f, Feed(m, frames + [f]), m.predicted, f.first - m.lastPrint >= 1000,
               m.perSecond + (f.timestamp - Origin(m, frames + [f])), (|frames| + 1) % 256);
  }

  lemma {:induction false} RunIsFeed(now: int, frames: seq<Frame>)
    ensures Run(now, frames).0 == Feed(Initial(now), frames)
  {
    if frames == [] {
    } else {
      RunIsFeed(now, frames[..|frames| - 1]);
    }
  }

  lemma {:induction false} PredictionStays(m: Meter, frames: seq<Frame>)
    requires InWindow(m, frames)
    ensures Feed(m, frames).predicted == m.predicted && Feed(m, frames).lastPrint == m.lastPrint
  {
    if frames == [] {
    } else {
      PredictionStays(m, frames[..|frames| - 1]);
    }
  }

  /** Until its first window ends a run predicts 30 frames per second, whatever the timestamps. */
  lemma StartsAtThirty(now: int, frames: seq<Frame>)
    requires forall i :: 0 <= i < |frames| ==> frames[i].first - now < 1000 && frames[i].second - now < 1000
    ensures Predicted(now, frames) == 30.0
  {
    RunIsFeed(now, frames);
    PredictionStays(Initial(now), frames);
  }

  lemma {:induction false} OriginIsFirst(m: Meter, frames: seq<Frame>)
    requires m.lastTimestamp == 0 && frames != [] && frames[0].timestamp != 0
    ensures Origin(m, frames) == frames[0].timestamp
  {
    if |frames| == 1 {
      assert Origin(m, frames[..0]) == 0;
    } else {
      OriginIsFirst(m, frames[..|frames| - 1]);
    }
  }

  /** The first prediction of a run: the number of frames over the time between the first timestamp
      and the last, unless that is 255 frames per second or more. */
  lemma FirstPrediction(now: int, frames: seq<Frame>, f: Frame)
    requires frames != [] && forall i :: 0 <= i < |frames| ==> frames[i].timestamp != 0
    requires forall i :: 0 <= i < |frames| ==> frames[i].first - now < 1000 && frames[i].second - now < 1000
    requires f.timestamp != 0 && f.first - now >= 1000 && f.second - now >= 1000
    ensures IsRate(Predicted(now, frames + [f]), 30.0, f.timestamp - frames[0].timestamp, (|frames| + 1) % 256)
  {
    var m, all := Initial(now), frames + [f];
    assert forall i :: 0 <= i < |all| ==> all[i].timestamp != 0;
    OriginIsFirst(m, all);
    PredictionIsFrameRate(m, frames, f);
    RunIsFeed(now, all);
  }

  /** 255 frames in one window, 40 ms apart. */
  const FULL_WINDOW: seq<Frame> := seq(255, i => Frame(40 * (i + 1), 0, 0, 0))

  /** With the 256th frame the counter wraps, and the prediction drops to zero. */
  lemma FullWindowBreaksPrediction()
    ensures Predicted(0, FULL_WINDOW + [Frame(40 * 256, 1000, 1000, 1000)]) == 0.0
  {
    var m, f := Initial(0), Frame(40 * 256, 1000, 1000, 1000);
    var frames := FULL_WINDOW + [f];
    assert forall i :: 0 <= i < |frames| ==> frames[i].timestamp == 40 * (i + 1);
    OriginIsFirst(m, frames);
    PredictionIsFrameRate(m, FULL_WINDOW, f);
    RunIsFeed(0, frames);
  }
}
