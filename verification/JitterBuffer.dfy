/** How the jitter buffer grows: its size in milliseconds is a 16-bit number that is doubled when
    the buffer runs out again too soon. */
module JitterBuffer {

  const WIDTH := 65536
  const MAX_REBUFFERING_COUNT := 1
  const MAX_ITERATIONS := 200

  /** `doublings` counts how often the size was doubled; the code keeps no such counter. */
  datatype Buffer = Buffer(size: nat, reBufferingCount: nat, lastBufferingTime: int, doublings: nat)

  function Initial(size: nat, now: int): Buffer {
    Buffer(size, 0, now, 0)
  }

  /** The size is a 16-bit number. */
  function Twice(size: nat): nat {
    size * 2 % 65536
  }

  /** ResizeBuffer: `now` is the clock at the comparison, `later` when the time is stored. */
  function Resize(b: Buffer, now: int, later: int, windowSeconds: nat): Buffer {
    var tooSoon := b.reBufferingCount >= MAX_REBUFFERING_COUNT && now - b.lastBufferingTime < windowSeconds * 1000;
    Buffer(if tooSoon then Twice(b.size) else b.size, b.reBufferingCount + 1, later,
           if tooSoon then b.doublings + 1 else b.doublings)
  }

  /** What follows every buffering phase. */
  function AfterBuffering(b: Buffer, now: int, later: int, windowSeconds: nat, maxSize: nat): Buffer {
    if b.size < maxSize then Resize(b, now, later, windowSeconds) else b
  }

  /** What the buffering loop sees when it evaluates its condition. */
  datatype Observation = Observation(isRunning: bool, queued: nat)

  /** The buffer holds at least `size` milliseconds of video at the given frame rate. At a rate of
      zero the time per frame is infinite, and what is compared is infinite or not a number, which
      is not less than any size. */
  predicate IsFull(size: nat, queued: nat, rate: real) {
    rate == 0.0 || queued as real * (1000.0 / rate) >= size as real
  }

  /** WaitForBuffering waits for the given number of rounds: as long as the pipeline is running, the
      buffer is not full and fewer than 200 have passed. */
  predicate Waits(seen: nat -> Observation, size: nat, rate: real, rounds: nat) {
    && rounds <= MAX_ITERATIONS
    && (forall i :: 0 <= i < rounds ==> seen(i).isRunning && !IsFull(size, seen(i).queued, rate))
    && (rounds < MAX_ITERATIONS ==> !seen(rounds).isRunning || IsFull(size, seen(rounds).queued, rate))
  }

  /** Full means, multiplied out, that the frames queued last at least as long as the buffer. */
  lemma FullMeans(size: nat, queued: nat, rate: real)
    requires rate >= 0.0
    ensures IsFull(size, queued, rate) <==> queued as real * 1000.0 >= size as real * rate
  {
    if rate > 0.0 {
      var lasts := queued as real * (1000.0 / rate);
      assert lasts * rate == queued as real * 1000.0;
      assert (lasts - size as real) * rate == queued as real * 1000.0 - size as real * rate;
    }
  }

  /** What the loop waits for, in numbers: at most 200 rounds, each of them with the pipeline running
      and less than `size` milliseconds of video queued, and then neither both nor the 200. */
  lemma WaitsMeans(seen: nat -> Observation, size: nat, rate: real, rounds: nat)
    requires rate >= 0.0
    ensures Waits(seen, size, rate, rounds) <==>
            && rounds <= 200
            && (forall i :: 0 <= i < rounds ==>
                  seen(i).isRunning && seen(i).queued as real * 1000.0 < size as real * rate)
            && (rounds < 200 ==> !seen(rounds).isRunning || seen(rounds).queued as real * 1000.0 >= size as real * rate)
  {
    forall i | 0 <= i <= rounds
      ensures IsFull(size, seen(i).queued, rate) <==> seen(i).queued as real * 1000.0 >= size as real * rate
    {
      FullMeans(size, seen(i).queued, rate);
    }
  }

  /** There is one such number of rounds. */
  lemma WaitIsDetermined(seen: nat -> Observation, size: nat, rate: real, rounds: nat, others: nat)
    requires Waits(seen, size, rate, rounds) && Waits(seen, size, rate, others)
    ensures rounds == others
  {
  }

  /** Whether a buffering phase ends with a doubling. */
  predicate IsDoubled(b: Buffer, now: int, windowSeconds: nat, maxSize: nat) {
    b.size < maxSize && b.reBufferingCount >= MAX_REBUFFERING_COUNT && now - b.lastBufferingTime < windowSeconds * 1000
  }

  datatype Clock = Clock(now: int, later: int)

  /** A run: one pair of clock readings per buffering phase. */
  function Run(initial: Buffer, clocks: seq<Clock>, windowSeconds: nat, maxSize: nat): Buffer {
    if clocks == [] then initial
    else
      var n := |clocks| - 1;
      AfterBuffering(Run(initial, clocks[..n], windowSeconds, maxSize), clocks[n].now, clocks[n].later,
                     windowSeconds, maxSize)
  }

  function Pow2(k: nat): (p: nat)
    ensures p >= 1
  {
    if k == 0 then 1 else 2 * Pow2(k - 1)
  }

  /** Every size that may be doubled fits into 16 bits when it is; in particular when the maximum
      is at most 32768. */
  ghost predicate NeverOverflows(size: nat, maxSize: nat) {
    forall k: nat :: size * Pow2(k) < maxSize ==> size * Pow2(k) < WIDTH / 2
  }

  lemma SmallMaximum(size: nat, maxSize: nat)
    requires maxSize <= WIDTH / 2
    ensures NeverOverflows(size, maxSize)
  {
  }

  lemma Doubled(size: nat, k: nat)
    ensures size * Pow2(k) * 2 == size * Pow2(k + 1)
  {
  }

  /** The invariant of every run: the size is the initial one doubled as often as counted, it
      stays below twice the maximum, and the last doubling started below the maximum, which makes
      the number of doublings logarithmic in maximum / initial size. */
  ghost predicate Grown(b: Buffer, size: nat, maxSize: nat) {
    && b.size == size * Pow2(b.doublings)
    && (b.doublings == 0 || size * Pow2(b.doublings - 1) < maxSize)
    && (b.reBufferingCount == 0 ==> b.doublings == 0)
    && b.doublings <= (if b.reBufferingCount == 0 then 0 else b.reBufferingCount - 1)
  }

  lemma GrowsByPhase(b: Buffer, size: nat, now: int, later: int, windowSeconds: nat, maxSize: nat)
    requires NeverOverflows(size, maxSize) && Grown(b, size, maxSize) && b.size < WIDTH
    requires b.size == size || b.size < 2 * maxSize
    ensures var r := AfterBuffering(b, now, later, windowSeconds, maxSize);
            Grown(r, size, maxSize) && r.size < WIDTH && (r.size == size || r.size < 2 * maxSize)
  {
    Doubled(size, b.doublings);
    assert b.size < maxSize ==> b.size < WIDTH / 2;
  }

  lemma {:induction false} RunGrows(size: nat, start: int, clocks: seq<Clock>, windowSeconds: nat, maxSize: nat)
    requires size < WIDTH && NeverOverflows(size, maxSize)
    ensures var b := Run(Initial(size, start), clocks, windowSeconds, maxSize);
            && Grown(b, size, maxSize)
            && (b.size == size || b.size < 2 * maxSize)
            && b.size < WIDTH
  {
    if clocks == [] {
      assert size * Pow2(0) == size;
    } else {
      var n := |clocks| - 1;
      RunGrows(size, start, clocks[..n], windowSeconds, maxSize);
      GrowsByPhase(Run(Initial(size, start), clocks[..n], windowSeconds, maxSize), size, clocks[n].now,
                   clocks[n].later, windowSeconds, maxSize);
    }
  }

  /** The first buffering phase never doubles. */
  lemma FirstNeverDoubles(size: nat, start: int, clock: Clock, windowSeconds: nat, maxSize: nat)
    ensures Run(Initial(size, start), [clock], windowSeconds, maxSize).size == size
  {
    assert [clock][..0] == [];
    assert Run(Initial(size, start), [], windowSeconds, maxSize) == Initial(size, start);
  }

  /** Every buffering phase comes at least a window after the one before. */
  predicate Spread(clocks: seq<Clock>, windowSeconds: nat) {
    forall i :: 1 <= i < |clocks| ==> clocks[i].now - clocks[i - 1].later >= windowSeconds * 1000
  }

  lemma SpreadFront(clocks: seq<Clock>, windowSeconds: nat)
    requires clocks != []
    ensures var n := |clocks| - 1;
            Spread(clocks, windowSeconds) <==>
            Spread(clocks[..n], windowSeconds)
            && (n > 0 ==> clocks[n].now - clocks[n - 1].later >= windowSeconds * 1000)
  {
    var n := |clocks| - 1;
    assert forall i :: 0 <= i < n ==> clocks[..n][i] == clocks[i];
  }

  /** Below the maximum the size is doubled in a run if and only if some buffering phase comes too
      soon after the one before. */
  lemma {:induction false} DoublesExactlyWhen(size: nat, start: int, clocks: seq<Clock>, windowSeconds: nat,
                                              maxSize: nat)
    requires size < maxSize
    ensures var b := Run(Initial(size, start), clocks, windowSeconds, maxSize);
            && (b.doublings == 0 <==> Spread(clocks, windowSeconds))
            && (b.doublings == 0 ==>
                  b == Buffer(size, |clocks|, if clocks == [] then start else clocks[|clocks| - 1].later, 0))
  {
    if clocks == [] {
    } else {
      var n := |clocks| - 1;
      DoublesExactlyWhen(size, start, clocks[..n], windowSeconds, maxSize);
      SpreadFront(clocks, windowSeconds);
    }
  }

  /** As long as the size is below the maximum, every phase has been counted and timed. */
  lemma {:induction false} BelowMaximum(size: nat, start: int, clocks: seq<Clock>, windowSeconds: nat, maxSize: nat)
    ensures var b := Run(Initial(size, start), clocks, windowSeconds, maxSize);
            b.size < maxSize ==>
              && b.reBufferingCount == |clocks|
              && b.lastBufferingTime == (if clocks == [] then start else clocks[|clocks| - 1].later)
  {
    if clocks == [] {
    } else {
      BelowMaximum(size, start, clocks[..|clocks| - 1], windowSeconds, maxSize);
    }
  }

  /** In every run, whatever has been doubled before: a phase doubles the size, as a 16-bit number, if
      and only if the size is below the maximum and the phase is not the first and began less than a
      window after the end of the one before. */
  lemma PhaseDoublesExactlyWhen(size: nat, start: int, clocks: seq<Clock>, clock: Clock, windowSeconds: nat,
                                maxSize: nat)
    ensures var b := Run(Initial(size, start), clocks, windowSeconds, maxSize);
            var r := Run(Initial(size, start), clocks + [clock], windowSeconds, maxSize);
            if b.size < maxSize && clocks != [] && clock.now - clocks[|clocks| - 1].later < windowSeconds * 1000
            then r.size == b.size * 2 % 65536 && r.doublings == b.doublings + 1
            else r.size == b.size && r.doublings == b.doublings
  {
    BelowMaximum(size, start, clocks, windowSeconds, maxSize);
    assert (clocks + [clock])[..|clocks|] == clocks;
  }

  /** A run in which the buffer runs out again at once, n + 1 times. */
  function Stalls(n: nat): seq<Clock> {
    seq(n + 1, _ => Clock(0, 0))
  }

  /** The state after n doublings in a row. */
  function Stalled(size: nat, n: nat): Buffer {
    Buffer(size * Pow2(n), n + 1, 0, n)
  }

  lemma StallOnce(size: nat, n: nat, windowSeconds: nat, maxSize: nat)
    requires windowSeconds > 0 && size * Pow2(n) < maxSize && size * Pow2(n) < WIDTH / 2
    ensures AfterBuffering(Stalled(size, n), 0, 0, windowSeconds, maxSize) == Stalled(size, n + 1)
  {
    Doubled(size, n);
  }

  lemma {:induction false} StallsDouble(size: nat, n: nat, windowSeconds: nat, maxSize: nat)
    requires windowSeconds > 0 && size < maxSize
    requires forall k: nat :: k < n ==> size * Pow2(k) < maxSize && size * Pow2(k) < WIDTH / 2
    ensures Run(Initial(size, 0), Stalls(n), windowSeconds, maxSize) == Stalled(size, n)
  {
    var clocks := Stalls(n);
    if n == 0 {
      assert clocks[..0] == [];
      assert Run(Initial(size, 0), clocks[..0], windowSeconds, maxSize) == Initial(size, 0);
      assert size * Pow2(0) == size;
    } else {
      StallsDouble(size, n - 1, windowSeconds, maxSize);
      assert clocks[..n] == Stalls(n - 1);
      StallOnce(size, n - 1, windowSeconds, maxSize);
    }
  }

  lemma {:induction false} PowersGrow(size: nat, j: nat, k: nat)
    requires j <= k
    ensures size * Pow2(j) <= size * Pow2(k)
    decreases k
  {
    if j == k {
    } else {
      PowersGrow(size, j, k - 1);
      Doubled(size, k - 1);
    }
  }

  /** The first size that may still be doubled but does not fit when it is. */
  lemma {:induction false} FirstOverflow(size: nat, maxSize: nat, k: nat) returns (n: nat)
    requires size * Pow2(k) < maxSize && size * Pow2(k) >= WIDTH / 2
    ensures n <= k && WIDTH / 2 <= size * Pow2(n) < maxSize
    ensures forall j: nat :: j < n ==> size * Pow2(j) < maxSize && size * Pow2(j) < WIDTH / 2
    decreases k
  {
    if j: nat :| j < k && size * Pow2(j) >= WIDTH / 2 {
      PowersGrow(size, j, k);
      n := FirstOverflow(size, maxSize, j);
    } else {
      n := k;
    }
  }

  predicate EndsOnPower(size: nat, start: int, clocks: seq<Clock>, windowSeconds: nat, maxSize: nat) {
    var b := Run(Initial(size, start), clocks, windowSeconds, maxSize);
    b.size == size * Pow2(b.doublings)
  }

  /** The exact condition: the size is the initial one times a power of two in every run if and
      only if no size that may be doubled overflows. */
  lemma GrowthExactlyWhen(size: nat, windowSeconds: nat, maxSize: nat)
    requires size < WIDTH && maxSize < WIDTH && windowSeconds > 0
    ensures (forall start, clocks :: EndsOnPower(size, start, clocks, windowSeconds, maxSize))
       <==> NeverOverflows(size, maxSize)
  {
    if NeverOverflows(size, maxSize) {
      forall start, clocks
        ensures EndsOnPower(size, start, clocks, windowSeconds, maxSize)
      {
        RunGrows(size, start, clocks, windowSeconds, maxSize);
      }
    } else {
      var k: nat :| size * Pow2(k) < maxSize && size * Pow2(k) >= WIDTH / 2;
      var n := FirstOverflow(size, maxSize, k);
      var clocks := Stalls(n + 1);
      assert clocks[..n + 1] == Stalls(n);
      assert size * Pow2(0) == size;
      PowersGrow(size, 0, n);
      StallsDouble(size, n, windowSeconds, maxSize);
      Doubled(size, n);
      assert !EndsOnPower(size, 0, clocks, windowSeconds, maxSize);
    }
  }

  /** With a maximum of 50000 an initial size of 40000 shrinks when it is doubled. */
  lemma DoublingMayShrink()
    ensures Run(Initial(40000, 0), [Clock(0, 0), Clock(0, 0)], 1, 50000).size == 14464
  {
    var clocks := [Clock(0, 0), Clock(0, 0)];
    assert clocks[..1][..0] == [];
    assert Run(Initial(40000, 0), clocks[..1], 1, 50000) == Buffer(40000, 1, 0, 0);
  }
}
