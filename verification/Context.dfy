/** The numeric fields of the shared context and the functions that update them. Clock readings and
    what other threads do in between are parameters. */
module Context {
  import opened Wrappers
  import JitterBuffer
  import FrameRate
  import Decimation
  import Pacing

  class AgoraContext {
    var jbSize: nat
    var reBufferingCount: nat
    var lastBufferingTime: int
    ghost var doublings: nat
    const maxJbSize: nat
    const timeToIncreaseJbSize: nat
    var isJbBuffering: bool

    var fps: nat
    var predictedFps: real
    var lastFpsPrintTime: int
    var lastFrameTimestamp: int
    var timestampPerSecond: int

    const dfps: nat
    var highVideoFrameCount: nat
    var lowVideoFrameCount: nat
    var encodeNextFrame: bool
    ghost var sending: bool  // the low thread has decided to send a frame and not counted it yet

    var lastVideoSampingInterval: int

    ghost function JbState(): JitterBuffer.Buffer
      reads this
    {
      JitterBuffer.Buffer(jbSize, reBufferingCount, lastBufferingTime, doublings)
    }

    function Meter(): FrameRate.Meter
      reads this
    {
      FrameRate.Meter(fps, predictedFps, lastFpsPrintTime, lastFrameTimestamp, timestampPerSecond)
    }

    ghost function Counts(): Decimation.Counters
      requires dfps > 0
      reads this
    {
      Decimation.Counters(highVideoFrameCount, lowVideoFrameCount, sending, predictedFps / dfps as real)
    }

    constructor (initialSize: nat, maxSize: nat, timeToIncrease: nat, lowFps: nat, now: int)
      requires initialSize < JitterBuffer.WIDTH && maxSize < JitterBuffer.WIDTH && 0 < lowFps < 65536
      ensures maxJbSize == maxSize && timeToIncreaseJbSize == timeToIncrease && dfps == lowFps
      ensures JbState() == JitterBuffer.Initial(initialSize, now)
      ensures Meter() == FrameRate.Initial(now)
      ensures Counts() == Decimation.Start(FrameRate.INITIAL_FPS / lowFps as real)
      ensures !isJbBuffering && encodeNextFrame && lastVideoSampingInterval == 33
    {
      jbSize, reBufferingCount, lastBufferingTime, doublings := initialSize, 0, now, 0;
      maxJbSize, timeToIncreaseJbSize := maxSize, timeToIncrease;
      isJbBuffering := false;
      fps, predictedFps, lastFpsPrintTime, lastFrameTimestamp, timestampPerSecond :=
        0, FrameRate.INITIAL_FPS, now, 0, 0;
      dfps := lowFps;
      highVideoFrameCount, lowVideoFrameCount, encodeNextFrame, sending := 0, 0, true, false;
      lastVideoSampingInterval := 33;
    }

    method ResizeBuffer(now: int, later: int)
      modifies this`jbSize, this`doublings, this`lastBufferingTime, this`reBufferingCount
      ensures JbState() == JitterBuffer.Resize(old(JbState()), now, later, timeToIncreaseJbSize)
    {
      var diff := now - lastBufferingTime;
      if reBufferingCount >= JitterBuffer.MAX_REBUFFERING_COUNT && diff < timeToIncreaseJbSize * 1000 {
        jbSize := JitterBuffer.Twice(jbSize);
        doublings := doublings + 1;
      }
      lastBufferingTime := later;
      reBufferingCount := reBufferingCount + 1;
    }

    /** `rounds` is the number of ten-millisecond rounds waited: exactly as long as the pipeline is
        running, fewer than 200 rounds have passed and the buffer is not full. The gate is open at
        the end, and was closed if there was a round at all. */
    method WaitForBuffering(seen: nat -> JitterBuffer.Observation) returns (rounds: nat, closed: bool)
      modifies this`isJbBuffering
      ensures JitterBuffer.Waits(seen, jbSize, predictedFps, rounds)
      ensures !isJbBuffering && closed == (rounds > 0 || old(isJbBuffering))
    {
      var rate := predictedFps;
      rounds := 0;
      while seen(rounds).isRunning && rounds < JitterBuffer.MAX_ITERATIONS
            && !JitterBuffer.IsFull(jbSize, seen(rounds).queued, rate)
        invariant rounds <= JitterBuffer.MAX_ITERATIONS
        invariant isJbBuffering == (rounds > 0 || old(isJbBuffering))
        invariant forall i :: 0 <= i < rounds ==>
                    seen(i).isRunning && !JitterBuffer.IsFull(jbSize, seen(i).queued, rate)
        decreases JitterBuffer.MAX_ITERATIONS - rounds
      {
        isJbBuffering := true;
        rounds := rounds + 1;
      }
      closed := isJbBuffering;
      isJbBuffering := false;
    }

    /** Buffers when nothing has been sent for more than three times the frame rate (compared with
        milliseconds) and the queue is empty; the size is adjusted behind it. */
    method CheckAndFillInVideoJb(lastSendTime: int, now: int, isEmpty: bool, seen: nat -> JitterBuffer.Observation,
                                 resizeNow: int, resizeLater: int) returns (waited: bool)
      modifies this`isJbBuffering, this`jbSize, this`doublings, this`lastBufferingTime, this`reBufferingCount
      ensures waited <==> (now - lastSendTime) as real > 3.0 * predictedFps && isEmpty
      ensures JbState() == if waited
                           then JitterBuffer.AfterBuffering(old(JbState()), resizeNow, resizeLater,
                                                            timeToIncreaseJbSize, maxJbSize)
                           else old(JbState())
      ensures if waited then !isJbBuffering else isJbBuffering == old(isJbBuffering)
    {
      var diff := now - lastSendTime;
      waited := diff as real > 3.0 * predictedFps && isEmpty;
      if waited {
        var _, _ := WaitForBuffering(seen);
        if jbSize < maxJbSize {
          ResizeBuffer(resizeNow, resizeLater);
        }
      }
    }

    method UpdatePredictedFps(timestamp: int, now: int)
      requires fps < 256
      modifies this`fps, this`predictedFps, this`lastFrameTimestamp, this`timestampPerSecond
      ensures Meter() == FrameRate.Update(old(Meter()), timestamp, now)
      ensures fps < 256
    {
      fps := (fps + 1) % 256;
      if lastFrameTimestamp != 0 {
        var diff := timestamp - lastFrameTimestamp;
        timestampPerSecond := timestampPerSecond + diff;
      }
      lastFrameTimestamp := timestamp;
      if now - lastFpsPrintTime >= 1000 {
        if fps == 0 {
          if timestampPerSecond > 0 {
            predictedFps := 0.0;
          }
        } else {
          var averageTimeStamp := timestampPerSecond as real / fps as real;
          if averageTimeStamp > 1000.0 / FrameRate.MAX_FPS {
            predictedFps := 1000.0 / averageTimeStamp;
          }
        }
        timestampPerSecond := 0;
      }
    }

    /** The bookkeeping of agora_send_video behind the queueing of the frame. */
    method CountSentVideo(f: FrameRate.Frame)
      requires fps < 256 && dfps > 0
      modifies this`fps, this`predictedFps, this`lastFrameTimestamp, this`timestampPerSecond
      modifies this`lastFpsPrintTime, this`highVideoFrameCount, this`lowVideoFrameCount
      ensures Meter() == FrameRate.Send(old(Meter()), f)
      ensures fps < 256
      ensures var updated := if FrameRate.WindowOver(old(Meter()), f.first)
                             then Decimation.Apply(old(Counts()), Decimation.NewRatio(predictedFps / dfps as real))
                             else old(Counts());
              Counts() == if FrameRate.WindowOver(old(Meter()), f.second)
                          then Decimation.Apply(Decimation.Apply(updated, Decimation.ClearHigh), Decimation.ClearLow)
                          else updated
    {
      UpdatePredictedFps(f.timestamp, f.first);
      if f.second - lastFpsPrintTime >= 1000 {
        highVideoFrameCount := 0;
        lowVideoFrameCount := 0;
        lastFpsPrintTime := f.third;
        fps := 0;
      }
    }

    method CountHighFrame()
      requires dfps > 0
      modifies this`highVideoFrameCount
      ensures Counts() == Decimation.Apply(old(Counts()), Decimation.HighSent)
    {
      highVideoFrameCount := (highVideoFrameCount + 1) % 256;
    }

    /** The decision of doSendLowVideo. */
    method DecideLow(isKeyFrame: bool) returns (send: bool)
      requires dfps > 0 && !sending
      modifies this`encodeNextFrame, this`sending
      ensures Counts() == Decimation.Apply(old(Counts()), Decimation.LowDecides(isKeyFrame))
      ensures send == sending && encodeNextFrame == Decimation.IsDue(old(Counts()))
    {
      encodeNextFrame := false;
      var ratio := predictedFps / dfps as real;
      if lowVideoFrameCount as real * ratio < highVideoFrameCount as real {
        encodeNextFrame := true;
      }
      send := encodeNextFrame || isKeyFrame;
      sending := send;
    }

    /** Behind the re-encoding the frame is counted. */
    method CountLow()
      requires dfps > 0 && sending
      modifies this`lowVideoFrameCount, this`sending
      ensures Counts() == Decimation.Apply(old(Counts()), Decimation.LowCounts)
    {
      lowVideoFrameCount := (lowVideoFrameCount + 1) % 256;
      sending := false;
    }

    /** The frame-skipping part of doSendLowVideo, when no other thread comes in between. */
    method SkipOrSendLow(isKeyFrame: bool) returns (sent: bool)
      requires dfps > 0 && !sending
      modifies this`lowVideoFrameCount, this`encodeNextFrame, this`sending
      ensures var decided := Decimation.Apply(old(Counts()), Decimation.LowDecides(isKeyFrame));
              Counts() == Decimation.Apply(decided, Decimation.LowCounts)
      ensures sent <==> isKeyFrame || Decimation.IsDue(old(Counts()))
    {
      sent := DecideLow(isKeyFrame);
      if sent {
        CountLow();
      }
    }

    /** GetNextSamplingPoint, relative to the current time. */
    method GetNextSamplingPoint(head: Option<int>, size: nat, currentTimestamp: int, lastTimestamp: int)
      returns (sleep: int)
      modifies this`lastVideoSampingInterval
      ensures sleep == Pacing.SleepTime(currentTimestamp, lastTimestamp, head, size, jbSize)
      ensures var distance := if head.None? || head.value == currentTimestamp then currentTimestamp - lastTimestamp
                              else head.value - currentTimestamp;
              Pacing.Lasts(sleep, distance, size, jbSize)
      ensures lastVideoSampingInterval == sleep
    {
      Pacing.SleepExactly(currentTimestamp, lastTimestamp, head, size, jbSize);
      var currentTs := currentTimestamp;
      var nextTs := if head.None? then currentTs else head.value;
      currentTs := if currentTs == nextTs then lastTimestamp else currentTs;
      sleep := nextTs - currentTs;
      if size * sleep > jbSize {
        sleep := Pacing.SpeedUp(sleep);
      }
      lastVideoSampingInterval := sleep;
    }
  }
}
