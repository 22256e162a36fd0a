/** Progress while the pipeline is running: what is queued for a thread is sent within a fixed number
    of steps of that thread, whatever the other threads do in between. */
module Progress {
  import opened Pipeline
  import opened Delivery
  import JitterBuffer

  datatype Thread = HighThread | LowThread | AudioThread

  /** Items the thread has dealt with: sent or, for the low thread, sent or left out. */
  function Done(s: State, t: Thread): nat {
    match t
    case HighThread => |s.high.sent|
    case LowThread => |LowHandled(s.low)|
    case AudioThread => |s.audio.sent|
  }

  function HighBacklog(h: HighSide): nat {
    |h.jb| + |InHand(h.pc)|
  }

  function LowBacklog(l: LowSide): nat {
    |l.queue| + (if l.pc.LSend? then 1 else 0)
  }

  function AudioBacklog(a: AudioSide): nat {
    |a.queue| + |AudioInHand(a.pc)|
  }

  /** Items taken or queued and not yet dealt with. */
  function Backlog(s: State, t: Thread): nat {
    match t
    case HighThread => HighBacklog(s.high)
    case LowThread => LowBacklog(s.low)
    case AudioThread => AudioBacklog(s.audio)
  }

  /** Steps of the thread until it has dealt with an item, when there is one. */
  function HighRank(pc: HighPc): nat {
    match pc
    case HSend(_) => 1
    case HPace(_, _, _) => 2
    case HSample(_) => 3
    case HForward(_) => 4
    case HGet => 5
    case HWait => 6
    case HResize => 7
    case HOpenGate => 8
    case HBuffering(rounds) =>
      if rounds < JitterBuffer.MAX_ITERATIONS then JitterBuffer.MAX_ITERATIONS - rounds + 9 else 9
    case HCheck => 7
    case HTop => 8
    case HSleep => 9
    case _ => 0
  }

  function LowRank(pc: LowPc): nat {
    match pc
    case LSend(_) => 1
    case LGet => 2
    case LWait => 3
    case LTop => 4
    case _ => 0
  }

  function AudioRank(pc: AudioPc): nat {
    match pc
    case ASend(_) => 1
    case AGate(_) => 2
    case AGet => 3
    case AWait => 4
    case ATop => 5
    case ASleep => 6
    case _ => 0
  }

  function Rank(s: State, t: Thread): nat {
    match t
    case HighThread => HighRank(s.high.pc)
    case LowThread => LowRank(s.low.pc)
    case AudioThread => AudioRank(s.audio.pc)
  }

  /** The rank right behind an item. */
  function Period(t: Thread): nat {
    match t
    case HighThread => 9
    case LowThread => 4
    case AudioThread => 6
  }

  /** The step is one of the thread; for the audio thread, with the gate open. */
  predicate Counts(s: State, step: Step, t: Thread) {
    match t
    case HighThread => step.High?
    case LowThread => step.Low?
    case AudioThread => step.Audio? && !s.high.isJbBuffering
  }

  function Steps(s: State, steps: seq<Step>, t: Thread): nat
    requires CanRun(s, steps)
    decreases |steps|
  {
    if steps == [] then 0
    else (if Counts(s, steps[0], t) then 1 else 0) + Steps(Apply(s, steps[0]), steps[1..], t)
  }

  // ----- one step -----

  /** How far a thread is: items done, steps to the next one, items waiting. */
  datatype Position = Position(done: nat, rank: nat, backlog: nat)

  function PositionOf(s: State, t: Thread): Position {
    Position(Done(s, t), Rank(s, t), Backlog(s, t))
  }

  function HighPosition(h: HighSide): Position {
    Position(|h.sent|, HighRank(h.pc), HighBacklog(h))
  }

  function LowPosition(l: LowSide): Position {
    Position(|LowHandled(l)|, LowRank(l.pc), LowBacklog(l))
  }

  function AudioPosition(a: AudioSide): Position {
    Position(|a.sent|, AudioRank(a.pc), AudioBacklog(a))
  }

  /** Either the next item is dealt with, or that is nearer. */
  predicate Advances(p: Position, p': Position, period: nat, own: bool) {
    if p'.done > p.done then
      p'.done == p.done + 1 && p.rank == 1 && p'.rank == period && p'.backlog + 1 >= p.backlog
    else
      p'.done == p.done && p'.backlog >= p.backlog && p'.rank + (if own then 1 else 0) <= p.rank
  }

  predicate NoneEnded(s: State) {
    AllFrames(s.audio.added) && !s.high.pc.HDone? && (s.dual ==> s.low.pc != LDone) && s.audio.pc != ADone
  }

  /** While the pipeline is running no thread has ended, and there is no sentinel anywhere. */
  predicate Alive(s: State) {
    Inv(s) && s.isRunning && NoneEnded(s)
  }

  lemma HighHandIsFrame(h: HighSide)
    requires HighInv(h, false) && h.pc.HPace?
    ensures h.pc.work.Frame?
  {
    assert h.popped[|h.sent|] == h.pc.work && h.added[|h.sent|] == h.pc.work;
  }

  lemma LowHeadIsFrame(s: State)
    requires Alive(s) && s.dual && s.low.queue != []
    ensures s.low.queue[0].Frame?
  {
    var l, i := s.low, |s.low.before|;
    assert l.forwarded[i] == l.queue[0];
    assert s.high.popped[i] == l.queue[0];
    assert s.high.added[i] == l.queue[0];
  }

  lemma AudioHeadIsFrame(a: AudioSide)
    requires AudioKept(a) && AllFrames(a.added) && a.queue != []
    ensures a.queue[0].Frame?
  {
    assert a.added[|a.taken|] == a.queue[0];
  }

  lemma HighAdvances(h: HighSide, idle: bool, full: bool, doubles: bool)
    requires HighInv(h, false) && !h.pc.HDone? && h.pc != HAsleep && HighBacklog(h) > 0
    ensures Advances(HighPosition(h), HighPosition(HighStep(h, true, idle, full, doubles)), 9, true)
    ensures !HighStep(h, true, idle, full, doubles).pc.HDone?
  {
    if h.pc.HPace? {
      HighHandIsFrame(h);
    }
  }

  lemma LowAdvances(l: LowSide, due: bool)
    requires LowInv(l, false) && l.pc != LDone && l.pc != LAsleep && LowBacklog(l) > 0
    requires l.queue != [] ==> l.queue[0].Frame?
    ensures Advances(LowPosition(l), LowPosition(LowStep(l, true, false, due)), 4, true)
    ensures LowStep(l, true, false, due).pc != LDone
  {
    if l.pc == LGet {
      TakenByGet(l, true, false);
    }
  }

  lemma AudioAdvances(a: AudioSide, isJbBuffering: bool)
    requires AudioKept(a) && AllFrames(a.added) && a.pc != ADone && a.pc != AAsleep && AudioBacklog(a) > 0
    ensures Advances(AudioPosition(a), AudioPosition(AudioStep(a, true, isJbBuffering)), 6, !isJbBuffering)
    ensures AudioStep(a, true, isJbBuffering).pc != ADone
  {
    if a.pc == AGet {
      AudioHeadIsFrame(a);
    }
  }

  /** What another thread adds. */
  lemma AddAdvances(s: State, step: Step, t: Thread)
    requires Alive(s) && Backlog(s, t) > 0 && Enabled(s, step) && Apply(s, step).isRunning
    requires match t case HighThread => !step.High? case LowThread => !step.Low? case AudioThread => !step.Audio?
    ensures Advances(PositionOf(s, t), PositionOf(Apply(s, step), t), Period(t), false)
  {
  }

  lemma StepAdvances(s: State, step: Step, t: Thread)
    requires Alive(s) && (t == LowThread ==> s.dual) && Backlog(s, t) > 0
    requires Enabled(s, step) && Apply(s, step).isRunning
    ensures Advances(PositionOf(s, t), PositionOf(Apply(s, step), t), Period(t), Counts(s, step, t))
  {
    if step.High? && t == HighThread {
      HighAdvances(s.high, step.idle, step.full, step.doubles);
    } else if step.Low? && t == LowThread {
      if s.low.queue != [] {
        LowHeadIsFrame(s);
      }
      LowAdvances(s.low, step.due);
    } else if step.Audio? && t == AudioThread {
      AudioAdvances(s.audio, s.high.isJbBuffering);
    } else {
      AddAdvances(s, step, t);
    }
  }

  lemma HighIsAwake(h: HighSide)
    requires QueueKept(h) && !h.pc.HDone? && HighBacklog(h) > 0
    ensures h.pc != HAsleep && h.pc != HCrashed && HighRank(h.pc) > 0
  {
  }

  lemma LowIsAwake(l: LowSide, cleared: bool)
    requires LowKept(l, cleared) && l.pc != LDone && LowBacklog(l) > 0
    ensures l.pc != LAsleep && LowRank(l.pc) > 0
  {
  }

  lemma AudioIsAwake(a: AudioSide)
    requires AudioKept(a) && a.pc != ADone && AudioBacklog(a) > 0
    ensures a.pc != AAsleep && AudioRank(a.pc) > 0
  {
  }

  /** A thread with something to do is never asleep. */
  lemma CanGoOn(s: State, t: Thread)
    requires Alive(s) && (t == LowThread ==> s.dual) && Backlog(s, t) > 0
    ensures match t
            case HighThread => Enabled(s, High(false, false, false))
            case LowThread => Enabled(s, Low(false))
            case AudioThread => Enabled(s, Audio)
    ensures Rank(s, t) > 0
  {
    match t
    case HighThread => HighIsAwake(s.high);
    case LowThread => LowIsAwake(s.low, Cleared(s));
    case AudioThread => AudioIsAwake(s.audio);
  }

  lemma HighStaysAlive(h: HighSide, idle: bool, full: bool, doubles: bool)
    requires HighInv(h, false) && !h.pc.HDone?
    ensures !HighStep(h, true, idle, full, doubles).pc.HDone?
  {
    if h.pc.HPace? {
      HighHandIsFrame(h);
    }
  }

  lemma NoSentinelNoEnd(l: LowSide, due: bool)
    requires l.pc != LDone && (l.queue != [] ==> l.queue[0].Frame?)
    ensures LowStep(l, true, false, due).pc != LDone
  {
  }

  lemma LowStaysAlive(s: State, due: bool)
    requires Alive(s) && s.dual
    ensures LowStep(s.low, true, false, due).pc != LDone
  {
    if s.low.queue != [] {
      LowHeadIsFrame(s);
    }
    NoSentinelNoEnd(s.low, due);
  }

  lemma AudioStaysAlive(a: AudioSide, isJbBuffering: bool)
    requires AudioKept(a) && AllFrames(a.added) && a.pc != ADone
    ensures AudioStep(a, true, isJbBuffering).pc != ADone
  {
    if a.queue != [] {
      AudioHeadIsFrame(a);
    }
  }

  lemma NoneEndsStep(s: State, step: Step)
    requires Alive(s) && Enabled(s, step) && Apply(s, step).isRunning
    ensures NoneEnded(Apply(s, step))
  {
    if step.High? {
      HighStaysAlive(s.high, step.idle, step.full, step.doubles);
    } else if step.Low? {
      LowStaysAlive(s, step.due);
    } else if step.Audio? {
      AudioStaysAlive(s.audio, s.high.isJbBuffering);
    }
  }

  lemma AliveStep(s: State, step: Step)
    requires Alive(s) && Enabled(s, step) && Apply(s, step).isRunning
    ensures Alive(Apply(s, step))
  {
    InvStep(s, step);
    NoneEndsStep(s, step);
  }

  lemma IdleHighKeepsDone(h: HighSide, idle: bool, full: bool, doubles: bool)
    requires HighBacklog(h) == 0 && !h.pc.HSend?
    ensures HighStep(h, true, idle, full, doubles).sent == h.sent
  {
  }

  lemma IdleLowKeepsDone(l: LowSide, due: bool)
    requires LowBacklog(l) == 0
    ensures LowHandled(LowStep(l, true, false, due)) == LowHandled(l)
  {
  }

  lemma IdleKeepsDone(s: State, step: Step, t: Thread)
    requires Alive(s) && (t == LowThread ==> s.dual) && Backlog(s, t) == 0
    requires Enabled(s, step) && Apply(s, step).isRunning
    ensures Done(Apply(s, step), t) == Done(s, t)
  {
    if step.High? && t == HighThread {
      IdleHighKeepsDone(s.high, step.idle, step.full, step.doubles);
    } else if step.Low? && t == LowThread {
      IdleLowKeepsDone(s.low, step.due);
    }
  }

  // ----- whole runs -----

  /** One step, with or without something to do. */
  predicate Link(p: Position, p': Position, period: nat, own: bool) {
    p'.done >= p.done && (p.backlog > 0 ==> Advances(p, p', period, own))
  }

  lemma HasRank(s: State, t: Thread)
    requires Alive(s) && (t == LowThread ==> s.dual)
    ensures Backlog(s, t) > 0 ==> Rank(s, t) > 0
  {
    if Backlog(s, t) > 0 {
      CanGoOn(s, t);
    }
  }

  lemma StepIsLink(s: State, step: Step, t: Thread)
    requires Alive(s) && (t == LowThread ==> s.dual) && Enabled(s, step) && Apply(s, step).isRunning
    ensures Link(PositionOf(s, t), PositionOf(Apply(s, step), t), Period(t), Counts(s, step, t))
  {
    if Backlog(s, t) > 0 {
      StepAdvances(s, step, t);
    } else {
      IdleKeepsDone(s, step, t);
    }
  }

  lemma {:induction false} StillRunning(s: State, steps: seq<Step>)
    requires CanRun(s, steps) && Run(s, steps).isRunning
    ensures s.isRunning
    decreases |steps|
  {
    if steps == [] {
    } else {
      StillRunning(Apply(s, steps[0]), steps[1..]);
    }
  }

  /** Period * (k - 1), one period at a time. */
  function Later(period: nat, k: nat): nat {
    if k <= 1 then 0 else period + Later(period, k - 1)
  }

  lemma {:induction false} LaterIs(period: nat, k: nat)
    requires k > 0
    ensures Later(period, k) == period * (k - 1)
  {
    if k == 1 {
    } else {
      LaterIs(period, k - 1);
      assert period * (k - 1) == period * (k - 2) + period;
    }
  }

  /** The positions of a thread in a run; `owns` says which steps count. */
  predicate Path(ps: seq<Position>, owns: seq<bool>, period: nat) {
    && |ps| == |owns| + 1 && (ps[0].backlog > 0 ==> ps[0].rank > 0)
    && (owns == [] || (Link(ps[0], ps[1], period, owns[0]) && Path(ps[1..], owns[1..], period)))
  }

  function Count(owns: seq<bool>): nat {
    if owns == [] then 0 else (if owns[0] then 1 else 0) + Count(owns[1..])
  }

  lemma {:induction false} PathGrows(ps: seq<Position>, owns: seq<bool>, period: nat)
    requires Path(ps, owns, period)
    ensures ps[|owns|].done >= ps[0].done
    decreases |owns|
  {
    if owns == [] {
    } else {
      PathGrows(ps[1..], owns[1..], period);
    }
  }

  /** Of the items waiting at the start of a path the first k are done after rank + period * (k - 1)
      steps that count. */
  lemma {:induction false} PathIsDone(ps: seq<Position>, owns: seq<bool>, period: nat, k: nat)
    requires Path(ps, owns, period)
    requires 0 < k <= ps[0].backlog && Count(owns) >= ps[0].rank + Later(period, k)
    ensures ps[|owns|].done >= ps[0].done + k
    decreases |owns|
  {
    if owns == [] {
    } else if ps[1].done == ps[0].done {
      PathIsDone(ps[1..], owns[1..], period, k);
    } else if k == 1 {
      PathGrows(ps[1..], owns[1..], period);
    } else {
      PathIsDone(ps[1..], owns[1..], period, k - 1);
    }
  }

  lemma PathWith(p: Position, own: bool, ps: seq<Position>, owns: seq<bool>, period: nat)
    requires Path(ps, owns, period) && Link(p, ps[0], period, own) && (p.backlog > 0 ==> p.rank > 0)
    ensures Path([p] + ps, [own] + owns, period)
    ensures Count([own] + owns) == (if own then 1 else 0) + Count(owns)
    ensures ([p] + ps)[|[own] + owns|] == ps[|owns|]
  {
    assert ([p] + ps)[1..] == ps && ([own] + owns)[1..] == owns;
  }

  /** The state behind the first step of a run. */
  lemma FirstStep(s: State, steps: seq<Step>, t: Thread) returns (s': State, rest: seq<Step>, own: bool)
    requires Alive(s) && CanRun(s, steps) && Run(s, steps).isRunning && (t == LowThread ==> s.dual)
    requires steps != []
    ensures Alive(s') && s'.dual == s.dual && |rest| < |steps|
    ensures CanRun(s', rest) && Run(s', rest) == Run(s, steps)
    ensures Steps(s, steps, t) == (if own then 1 else 0) + Steps(s', rest, t)
    ensures Link(PositionOf(s, t), PositionOf(s', t), Period(t), own)
  {
    s', rest, own := Apply(s, steps[0]), steps[1..], Counts(s, steps[0], t);
    StillRunning(s', rest);
    AliveStep(s, steps[0]);
    StepIsLink(s, steps[0], t);
  }

  /** Every run through which the pipeline keeps running is such a path. */
  lemma {:induction false} RunIsPath(s: State, steps: seq<Step>, t: Thread)
    returns (ps: seq<Position>, owns: seq<bool>)
    requires Alive(s) && CanRun(s, steps) && Run(s, steps).isRunning && (t == LowThread ==> s.dual)
    ensures Path(ps, owns, Period(t)) && Count(owns) == Steps(s, steps, t)
    ensures ps[0] == PositionOf(s, t) && ps[|owns|] == PositionOf(Run(s, steps), t)
    decreases |steps|
  {
    HasRank(s, t);
    if steps == [] {
      ps, owns := [PositionOf(s, t)], [];
    } else {
      var s', rest, own := FirstStep(s, steps, t);
      ps, owns := RunIsPath(s', rest, t);
      PathWith(PositionOf(s, t), own, ps, owns, Period(t));
      ps, owns := [PositionOf(s, t)] + ps, [own] + owns;
    }
  }

  lemma {:induction false} AliveWhileRunning(s: State, steps: seq<Step>)
    requires Alive(s) && CanRun(s, steps) && Run(s, steps).isRunning
    ensures Alive(Run(s, steps))
    decreases |steps|
  {
    if steps == [] {
    } else {
      StillRunning(Apply(s, steps[0]), steps[1..]);
      AliveStep(s, steps[0]);
      AliveWhileRunning(Apply(s, steps[0]), steps[1..]);
    }
  }

  lemma RanksAreBounded(s: State, t: Thread)
    ensures Rank(s, t) <= if t == HighThread then 209 else Period(t)
  {
  }

  /** From the start, whatever has happened before: as long as the pipeline is running, what is
      queued or in hand is dealt with: by the high thread within 209 of its steps and nine more for
      each item but the first, by the low thread within four steps each, by the audio thread within
      six steps each at the open gate. */
  lemma ItemsAreSent(dual: bool, jbSize: nat, before: seq<Step>, after: seq<Step>, t: Thread, k: nat)
    requires CanRun(Init(dual, jbSize), before) && CanRun(Run(Init(dual, jbSize), before), after)
    requires Run(Run(Init(dual, jbSize), before), after).isRunning && (t == LowThread ==> dual)
    requires 0 < k <= Backlog(Run(Init(dual, jbSize), before), t)
    ensures var s, first := Run(Init(dual, jbSize), before), if t == HighThread then 209 else Period(t);
            Steps(s, after, t) >= first + Period(t) * (k - 1) ==> Done(Run(s, after), t) >= Done(s, t) + k
  {
    var s := Run(Init(dual, jbSize), before);
    StillRunning(s, after);
    InvInit(dual, jbSize);
    AliveWhileRunning(Init(dual, jbSize), before);
    DualIsKept(Init(dual, jbSize), before);
    RanksAreBounded(s, t);
    LaterIs(Period(t), k);
    var first := if t == HighThread then 209 else Period(t);
    if Steps(s, after, t) >= first + Period(t) * (k - 1) {
      var ps, owns := RunIsPath(s, after, t);
      PathIsDone(ps, owns, Period(t), k);
    }
  }
}
