/** How long the video thread sleeps between frames. */
module Pacing {
  import opened Wrappers

  /** (long)(t * 0.95) for a positive t, over exact numbers. */
  function SpeedUp(t: int): int
    requires t > 0
  {
    t * 95 / 100
  }

  /** GetNextSamplingPoint: `next` is the timestamp of the frame at the head of the queue, `size`
      the number of frames queued. Without a successor (or with one of the same timestamp) the
      previous interval is used. */
  function SleepTime(current: int, last: int, next: Option<int>, size: nat, jbSize: nat): int {
    var nextTs := if next.None? then current else next.value;
    var from := if current == nextTs then last else current;
    var t := nextTs - from;
    if size * t > jbSize then
      assert t > 0;
      SpeedUp(t)
    else t
  }

  /** The sleep for an interval: all of it while the queue holds no more than `jbSize` milliseconds at
      that interval, and otherwise 95 percent, cut down to a millisecond. */
  predicate Lasts(sleep: int, interval: int, size: nat, jbSize: nat) {
    if size * interval <= jbSize then sleep == interval
    else 100 * sleep <= 95 * interval < 100 * (sleep + 1)
  }

  /** The interval is the distance to the next frame, or that to the frame before if there is no next
      one or it has the same timestamp. */
  lemma SleepExactly(current: int, last: int, next: Option<int>, size: nat, jbSize: nat)
    ensures next.None? || next.value == current ==>
              Lasts(SleepTime(current, last, next, size, jbSize), current - last, size, jbSize)
    ensures next.Some? && next.value != current ==>
              Lasts(SleepTime(current, last, next, size, jbSize), next.value - current, size, jbSize)
  {
  }

  function Sum(s: seq<int>): int {
    if s == [] then 0 else Sum(s[..|s| - 1]) + s[|s| - 1]
  }

  /** Some sleep the function computes, for whatever queue length and buffer size there was. */
  predicate SleepFor(current: int, next: int, sleep: int) {
    current < next && (sleep == next - current || sleep == SpeedUp(next - current))
  }

  /** Sleep k belongs to frame k: each frame has a later successor, at timestamps[k + 1]. */
  predicate Paced(timestamps: seq<int>, sleeps: seq<int>) {
    && |timestamps| == |sleeps| + 1
    && forall k :: 0 <= k < |sleeps| ==> SleepFor(timestamps[k], timestamps[k + 1], sleeps[k])
  }

  lemma SleepIsSleepFor(current: int, last: int, next: int, size: nat, jbSize: nat)
    requires current < next
    ensures SleepFor(current, next, SleepTime(current, last, Some(next), size, jbSize))
  {
  }

  /** The sleeps telescope: together they last as long as the timestamps advance, at most five
      percent and a millisecond per frame less, whichever frames are sped up. */
  lemma {:induction false} SleepsTelescope(timestamps: seq<int>, sleeps: seq<int>)
    requires Paced(timestamps, sleeps)
    ensures var n, advance := |sleeps|, timestamps[|sleeps|] - timestamps[0];
            Sum(sleeps) <= advance && 100 * Sum(sleeps) >= 95 * advance - 99 * n
  {
    if sleeps == [] {
    } else {
      var n := |sleeps| - 1;
      SleepsTelescope(timestamps[..n + 1], sleeps[..n]);
      assert SleepFor(timestamps[n], timestamps[n + 1], sleeps[n]);
    }
  }
}
