/** The gate between the video and the audio thread: it holds the audio back while the high thread
    fills its buffer, and it always opens. */
module Gate {
  import opened Pipeline
  import opened Delivery
  import opened Progress
  import JitterBuffer

  // ----- the gate opens -----

  function HighSteps(steps: seq<Step>): nat {
    if steps == [] then 0 else (if steps[0].High? then 1 else 0) + HighSteps(steps[1..])
  }

  /** High-thread steps until the gate opens. */
  function GateRank(h: HighSide): nat
    requires GateKept(h)
  {
    if !h.isJbBuffering then 0
    else if h.pc.HBuffering? then JitterBuffer.MAX_ITERATIONS - h.pc.rounds + 2
    else 1
  }

  /** The gate is closed in every state of the run. */
  predicate GateClosedThroughout(s: State, steps: seq<Step>)
    requires CanRun(s, steps)
    decreases |steps|
  {
    s.high.isJbBuffering && (steps == [] || GateClosedThroughout(Apply(s, steps[0]), steps[1..]))
  }

  lemma GateRankStep(s: State, step: Step)
    requires Inv(s) && Enabled(s, step) && s.high.isJbBuffering
    ensures GateKept(Apply(s, step).high)
    ensures Apply(s, step).high.isJbBuffering ==>
              GateRank(Apply(s, step).high) + (if step.High? then 1 else 0) <= GateRank(s.high)
    ensures s.high.jb <= Apply(s, step).high.jb
    ensures Enabled(s, High(false, false, false))
  {
  }

  /** While the gate is closed the high thread can always go on, and after 202 of its steps at most
      the gate is open; nobody takes from the video queue meanwhile. */
  lemma {:induction false} GateOpens(s: State, steps: seq<Step>)
    requires Inv(s) && CanRun(s, steps) && GateClosedThroughout(s, steps)
    ensures HighSteps(steps) <= GateRank(s.high) <= 202
    ensures s.high.jb <= Run(s, steps).high.jb
    decreases |steps|
  {
    if steps == [] {
    } else {
      var step := steps[0];
      InvStep(s, step);
      GateRankStep(s, step);
      GateOpens(Apply(s, step), steps[1..]);
    }
  }

  // ----- the gate holds -----

  /** Nothing but an open gate or the stop of the pipeline lets the audio thread pass, in any state. */
  lemma OnlyOpenGatePasses(s: State, step: Step)
    requires Enabled(s, step)
    ensures s.audio.pc.AGate? ==>
              Apply(s, step).audio.pc ==
              if step == Audio && (!s.high.isJbBuffering || !s.isRunning) then ASend(s.audio.pc.work) else s.audio.pc
    ensures Apply(s, step).audio.pc.ASend? ==> s.audio.pc.ASend? || s.audio.pc.AGate?
  {
  }

  /** Sending is what the thread does past the gate and nowhere else. */
  lemma SendsPastGate(s: State, step: Step)
    requires Enabled(s, step)
    ensures var a := s.audio;
            if step == Audio && a.pc.ASend?
            then Apply(s, step).audio.sent == a.sent + [a.pc.work] && Apply(s, step).audio.pc == ASleep
            else Apply(s, step).audio.sent == a.sent && (a.pc.ASend? ==> Apply(s, step).audio.pc == a.pc)
  {
  }

  /** The thread waits at the gate; or it was past it and sends that one item; or it sends nothing. */
  predicate HeldBack(a: AudioSide, a': AudioSide) {
    && (a.pc.AGate? ==> a'.pc == a.pc)
    && (a'.pc.ASend? ==> a'.pc == a.pc)
    && a'.sent == if a.pc.ASend? && !a'.pc.ASend? then a.sent + [a.pc.work] else a.sent
  }

  /** From any state, as long as the gate stays closed and the pipeline running: an audio thread at
      the gate stays there and sends nothing, and any other sends at most the one item that was
      already past the gate. */
  lemma {:induction false} GateHoldsAudio(s: State, steps: seq<Step>)
    requires CanRun(s, steps) && GateClosedThroughout(s, steps) && Run(s, steps).isRunning
    ensures HeldBack(s.audio, Run(s, steps).audio)
    decreases |steps|
  {
    if steps == [] {
    } else {
      StillRunning(s, steps);
      OnlyOpenGatePasses(s, steps[0]);
      SendsPastGate(s, steps[0]);
      GateHoldsAudio(Apply(s, steps[0]), steps[1..]);
    }
  }

  /** The two threads never wait for each other: a waiting audio thread goes on if and only if the
      gate is open or a disconnect has begun, and until then the high thread has steps left to take. */
  lemma GateNeverDeadlocks(s: State)
    requires Inv(s) && s.audio.pc.AGate?
    ensures Enabled(s, Audio)
    ensures Apply(s, Audio).audio.pc == ASend(s.audio.pc.work) <==> !s.high.isJbBuffering || !s.isRunning
    ensures s.high.isJbBuffering ==> GateRank(s.high) > 0 && Enabled(s, High(false, false, false))
  {
    if s.high.isJbBuffering {
      GateRankStep(s, High(false, false, false));
    }
  }
}
