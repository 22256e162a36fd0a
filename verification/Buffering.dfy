/** The buffering steps of the high thread in the pipeline are the buffering phase of the context:
    the same rounds, the same gate, the same size. */
module Buffering {
  import opened Pipeline
  import JitterBuffer

  /** On its way to the queue a running thread starts to buffer if and only if it has been idle and
      the queue is empty, and otherwise waits for work; a stopped one ends. */
  lemma BuffersExactlyWhen(h: HighSide, isRunning: bool, idle: bool, full: bool, doubles: bool)
    requires h.pc == HTop
    ensures var checks := HighStep(h, isRunning, idle, full, doubles);
            if !isRunning then checks.pc == HDone([])
            else var next := HighStep(checks, isRunning, idle, full, doubles);
                 if idle && h.jb == [] then next == h.(pc := HBuffering(0)) else next == h.(pc := HWait)
  {
  }

  /** The high thread after n steps of its buffering loop. */
  function Loop(h: HighSide, seen: nat -> JitterBuffer.Observation, rate: real, n: nat): HighSide {
    if n == 0 then h
    else
      var before, now := Loop(h, seen, rate, n - 1), seen(n - 1);
      HighStep(before, now.isRunning, false, JitterBuffer.IsFull(h.jbSize, now.queued, rate), false)
  }

  lemma {:induction false} LoopRounds(h: HighSide, seen: nat -> JitterBuffer.Observation, rate: real, n: nat)
    requires h.pc == HBuffering(0) && n <= JitterBuffer.MAX_ITERATIONS
    requires forall i :: 0 <= i < n ==>
               seen(i).isRunning && !JitterBuffer.IsFull(h.jbSize, seen(i).queued, rate)
    ensures Loop(h, seen, rate, n) == h.(pc := HBuffering(n), isJbBuffering := h.isJbBuffering || n > 0)
  {
    if n == 0 {
    } else {
      LoopRounds(h, seen, rate, n - 1);
    }
  }

  /** The steps stay in the loop for exactly the rounds WaitForBuffering waits, with the gate closed
      from the first one on, and then leave it. */
  lemma LoopIsWait(h: HighSide, seen: nat -> JitterBuffer.Observation, rate: real, rounds: nat)
    requires h.pc == HBuffering(0) && rounds <= JitterBuffer.MAX_ITERATIONS
    requires forall i :: 0 <= i < rounds ==>
               seen(i).isRunning && !JitterBuffer.IsFull(h.jbSize, seen(i).queued, rate)
    ensures Loop(h, seen, rate, rounds + 1).pc == HOpenGate <==> JitterBuffer.Waits(seen, h.jbSize, rate, rounds)
    ensures Loop(h, seen, rate, rounds).isJbBuffering == (h.isJbBuffering || rounds > 0)
  {
    LoopRounds(h, seen, rate, rounds);
  }

  /** Behind the loop the gate is opened and the size becomes what the context makes of it. */
  lemma ResizeIsAfterBuffering(h: HighSide, isRunning: bool, b: JitterBuffer.Buffer, now: int, later: int,
                               windowSeconds: nat, maxSize: nat)
    requires h.pc == HOpenGate && h.jbSize == b.size
    ensures var atGate := HighStep(h, isRunning, false, false, false);
            var doubles := JitterBuffer.IsDoubled(b, now, windowSeconds, maxSize);
            var size := JitterBuffer.AfterBuffering(b, now, later, windowSeconds, maxSize).size;
            && !atGate.isJbBuffering
            && HighStep(atGate, isRunning, false, false, doubles)
            == h.(isJbBuffering := false, jbSize := size, pc := HWait)
  {
  }
}
