/** What the low stream holds: of the frames the low thread has dealt with, the key frames and those
    that were due. */
module LowStream {
  import opened Bytes
  import opened Pipeline
  import opened Delivery

  /** The decisions of the frame-skipping counters in a run, one for each item the low thread has
      dealt with. */
  function Dues(s: State, steps: seq<Step>): seq<bool>
    requires CanRun(s, steps)
    decreases |steps|
  {
    if steps == [] then []
    else (if steps[0].Low? && s.low.pc.LSend? then [steps[0].due] else []) + Dues(Apply(s, steps[0]), steps[1..])
  }

  /** The frames that are key frames or were due. */
  function Chosen(frames: seq<Work>, dues: seq<bool>): seq<Work>
    requires |frames| == |dues| && AllFrames(frames)
  {
    if frames == [] then []
    else
      var n := |frames| - 1;
      Chosen(frames[..n], dues[..n]) + (if dues[n] || frames[n].isKey then [frames[n]] else [])
  }

  predicate IsChosen(l: LowSide, dues: seq<bool>) {
    var handled := FramesOf(LowHandled(l));
    |handled| == |dues| && l.sent == Chosen(handled, dues)
  }

  lemma OneMoreChosen(frames: seq<Work>, dues: seq<bool>, w: Work, due: bool)
    requires |frames| == |dues| && AllFrames(frames) && w.Frame?
    ensures Chosen(frames + [w], dues + [due]) == Chosen(frames, dues) + (if due || w.isKey then [w] else [])
  {
    assert (frames + [w])[..|frames|] == frames && (dues + [due])[..|dues|] == dues;
  }

  lemma FramesOfLast(taken: seq<Work>)
    requires taken != [] && taken[|taken| - 1].Frame?
    ensures FramesOf(taken) == FramesOf(taken[..|taken| - 1]) + [taken[|taken| - 1]]
  {
  }

  lemma InHand(l: LowSide)
    requires LowSentKept(l) && l.pc.LSend?
    ensures var taken := LowTaken(l);
            taken != [] && taken[|taken| - 1] == l.pc.work && l.pc.work.Frame?
  {
  }

  lemma SendingChooses(l: LowSide, isRunning: bool, cleared: bool, due: bool)
    requires l.pc.LSend? && l.pc.work.Frame?
    ensures var l' := LowStep(l, isRunning, cleared, due);
            && LowHandled(l') == LowTaken(l)
            && l'.sent == l.sent + (if due || l.pc.work.isKey then [l.pc.work] else [])
  {
    AppendNothing(l.sent);
  }

  lemma DealtWith(l: LowSide, isRunning: bool, cleared: bool, due: bool, dues: seq<bool>)
    requires LowInv(l, cleared) && l.pc.LSend? && IsChosen(l, dues)
    ensures IsChosen(LowStep(l, isRunning, cleared, due), dues + [due])
  {
    InHand(l);
    FramesOfLast(LowTaken(l));
    SendingChooses(l, isRunning, cleared, due);
    OneMoreChosen(FramesOf(LowHandled(l)), dues, l.pc.work, due);
  }

  lemma FramesOfMore(taken: seq<Work>, w: Work)
    ensures FramesOf(if w.Frame? then taken else taken + [w]) == FramesOf(taken)
  {
    assert (taken + [w])[..|taken|] == taken;
    AppendNothing(FramesOf(taken));
  }

  lemma HandledByGet(l: LowSide, isRunning: bool, cleared: bool)
    requires l.pc == LGet && (!cleared ==> l.after == [])
    ensures FramesOf(LowHandled(LowGet(l, isRunning, cleared))) == FramesOf(LowHandled(l))
    ensures LowGet(l, isRunning, cleared).sent == l.sent
  {
    if l.queue != [] {
      var taken, w := LowTaken(l), l.queue[0];
      TakenByGet(l, isRunning, cleared);
      assert (taken + [w])[..|taken|] == taken;
      assert LowHandled(LowGet(l, isRunning, cleared)) == if w.Frame? then taken else taken + [w];
      FramesOfMore(taken, w);
    }
  }

  /** Nothing else makes a difference to the frames taken. */
  lemma OthersLeaveTaken(s: State, step: Step)
    requires Enabled(s, step) && !(step.Low? && (s.low.pc.LSend? || s.low.pc == LGet))
    ensures var l, l' := s.low, Apply(s, step).low;
            && l'.before == l.before && l'.after == l.after && l'.sent == l.sent
            && (l'.pc == l.pc || (!l.pc.LSend? && !l'.pc.LSend?))
  {
  }

  lemma ChosenByStep(s: State, step: Step, dues: seq<bool>)
    requires LowInv(s.low, Cleared(s)) && Enabled(s, step) && IsChosen(s.low, dues)
    ensures IsChosen(Apply(s, step).low, dues + (if step.Low? && s.low.pc.LSend? then [step.due] else []))
  {
    AppendNothing(dues);
    if step.Low? && s.low.pc.LSend? {
      DealtWith(s.low, s.isRunning, Cleared(s), step.due, dues);
    } else if step.Low? && s.low.pc == LGet {
      HandledByGet(s.low, s.isRunning, Cleared(s));
      assert Apply(s, step).low == LowGet(s.low, s.isRunning, Cleared(s));
    } else {
      OthersLeaveTaken(s, step);
      assert LowHandled(Apply(s, step).low) == LowHandled(s.low);
    }
  }

  lemma {:induction false} ChosenAlways(s: State, steps: seq<Step>, dues: seq<bool>)
    requires Inv(s) && CanRun(s, steps) && IsChosen(s.low, dues)
    ensures IsChosen(Run(s, steps).low, dues + Dues(s, steps))
    decreases |steps|
  {
    if steps == [] {
      AppendNothing(dues);
    } else {
      var now := if steps[0].Low? && s.low.pc.LSend? then [steps[0].due] else [];
      var s', rest := Apply(s, steps[0]), steps[1..];
      InvStep(s, steps[0]);
      ChosenByStep(s, steps[0], dues);
      ChosenAlways(s', rest, dues + now);
      Assoc(dues, now, Dues(s', rest));
    }
  }

  /** In every interleaving the low thread makes one decision for each frame it has dealt with, and
      the low stream is exactly those frames that are key frames or were due. */
  lemma LowStreamIsChosen(dual: bool, jbSize: nat, steps: seq<Step>)
    requires CanRun(Init(dual, jbSize), steps)
    ensures var l, dues := Run(Init(dual, jbSize), steps).low, Dues(Init(dual, jbSize), steps);
            |FramesOf(LowHandled(l))| == |dues| && l.sent == Chosen(FramesOf(LowHandled(l)), dues)
  {
    InvInit(dual, jbSize);
    assert FramesOf([]) == [];
    ChosenAlways(Init(dual, jbSize), steps, []);
    EmptyFront(Dues(Init(dual, jbSize), steps));
  }

  /** A disconnect empties the low queue: what was queued is dropped, and nothing else is touched. */
  lemma ClearingEmptiesQueue(s: State)
    requires Inv(s) && Enabled(s, ClearLow)
    ensures var l := Apply(s, ClearLow).low;
            && l.queue == [] && l.dropped == s.low.queue && l.pc == s.low.pc
            && l.forwarded == s.low.forwarded && LowTaken(l) == LowTaken(s.low) && l.sent == s.low.sent
            && s.low.forwarded == LowTaken(s.low) + l.dropped
  {
    AppendNothing(s.low.before);
  }
}
