/** The jitter-buffer pipeline as a state machine: one program counter per thread, one step per
    shared access. The nginx thread produces frames and finally disconnects; the high thread is the
    only consumer of the video queue and feeds the low queue; the low and the audio thread consume
    their own queues. */
module Pipeline {
  import opened Wrappers
  import opened Bytes
  import WorkQueue
  import Pacing
  import JitterBuffer

  /** A frame, or the sentinel that tells a thread to end; the timestamp of a sentinel is whatever
      its memory held. */
  datatype Work =
    | Frame(data: seq<byte>, isKey: bool, timestamp: int)
    | Sentinel(timestamp: int)

  /** VideoThreadHandlerHigh. `Buffering` counts the rounds of WaitForBuffering; `Crashed` is the
      access to the timestamp of a null work. */
  datatype HighPc =
    | HTop | HCheck | HBuffering(rounds: nat) | HOpenGate | HResize
    | HWait | HAsleep | HGet
    | HForward(work: Work) | HSample(work: Work) | HPace(work: Work, next: Option<int>, seen: nat)
    | HSend(work: Work) | HSleep
    | HDone(hand: seq<Work>) | HCrashed

  datatype LowPc = LTop | LWait | LAsleep | LGet | LSend(work: Work) | LDone

  datatype AudioPc = ATop | AWait | AAsleep | AGet | AGate(work: Work) | ASend(work: Work) | ASleep | ADone

  /** agora_disconnect, after DRun in which frames are produced. */
  datatype MainPc = DRun | DStopped | DVideoTold | DLowCleared | DLowTold | DDone

  /** One call of GetNextSamplingPoint by the high thread; `seen` is the number of frames added to
      the queue when it looked at the head. */
  datatype Pace = Pace(current: int, last: int, next: Option<int>, seen: nat, size: nat, jbSize: nat, sleep: int)

  /** The high thread, its queue and what has happened to its items; `gets` counts the takings
      since isRunning became false. */
  datatype HighSide = HighSide(pc: HighPc, jb: seq<Work>, isJbBuffering: bool, jbSize: nat, lastTimestamp: int,
                               added: seq<Work>, popped: seq<Work>, sent: seq<Work>, paces: seq<Pace>, gets: nat)

  /** The low thread: what was forwarded to its queue, taken before the queue was cleared, dropped
      then, taken after that, and sent. */
  datatype LowSide = LowSide(pc: LowPc, queue: seq<Work>, forwarded: seq<Work>, before: seq<Work>,
                             dropped: seq<Work>, after: seq<Work>, sent: seq<Work>, gets: nat)

  datatype AudioSide = AudioSide(pc: AudioPc, queue: seq<Work>, added: seq<Work>, taken: seq<Work>,
                                 sent: seq<Work>, gets: nat)

  datatype State = State(dual: bool, isRunning: bool, main: MainPc, high: HighSide, low: LowSide, audio: AudioSide)

  function Init(dual: bool, jbSize: nat): State {
    State(dual, true, DRun,
          HighSide(HTop, [], false, jbSize, 0, [], [], [], [], 0),
          LowSide(if dual then LTop else LDone, [], [], [], [], [], [], 0),
          AudioSide(ATop, [], [], [], [], 0))
  }

  // ----- adding to a queue wakes its one consumer -----

  function AddVideo(h: HighSide, w: Work): HighSide {
    h.(jb := WorkQueue.Pushed(h.jb, w), added := h.added + [w], pc := if h.pc == HAsleep then HWait else h.pc)
  }

  function AddLow(l: LowSide, w: Work): LowSide {
    l.(queue := WorkQueue.Pushed(l.queue, w), pc := if l.pc == LAsleep then LWait else l.pc)
  }

  function AddAudio(a: AudioSide, w: Work): AudioSide {
    a.(queue := WorkQueue.Pushed(a.queue, w), added := a.added + [w], pc := if a.pc == AAsleep then AWait else a.pc)
  }

  // ----- the threads -----

  function CountGet(gets: nat, isRunning: bool): nat {
    if isRunning then 0 else gets + 1
  }

  function HighGet(h: HighSide, isRunning: bool): HighSide {
    match WorkQueue.Head(h.jb)
    case None => h.(pc := HCrashed, gets := CountGet(h.gets, isRunning))
    case Some(w) => h.(jb := WorkQueue.Popped(h.jb), popped := h.popped + [w], pc := HForward(w),
                       gets := CountGet(h.gets, isRunning))
  }

  function TimestampOf(head: Option<Work>): Option<int> {
    if head.None? then None else Some(head.value.timestamp)
  }

  /** The sampling point is computed before the sentinel is recognised; the head of the queue has
      been looked at in an earlier step than its length. */
  function HighPace(h: HighSide, w: Work, next: Option<int>, seen: nat): HighSide {
    if w.Sentinel? then h.(pc := HDone([w]))
    else
      var sleep := Pacing.SleepTime(w.timestamp, h.lastTimestamp, next, |h.jb|, h.jbSize);
      h.(paces := h.paces + [Pace(w.timestamp, h.lastTimestamp, next, seen, |h.jb|, h.jbSize, sleep)], pc := HSend(w))
  }

  /** One step of the high thread on its own side; `idle`, `full` and `doubles` stand for decisions
      that depend on clocks, the frame rate and the re-buffering count. */
  function HighStep(h: HighSide, isRunning: bool, idle: bool, full: bool, doubles: bool): HighSide {
    match h.pc
    case HTop => h.(pc := if isRunning then HCheck else HDone([]))
    case HCheck => h.(pc := if idle && h.jb == [] then HBuffering(0) else HWait)
    case HBuffering(rounds) =>
      if isRunning && rounds < JitterBuffer.MAX_ITERATIONS && !full
      then h.(isJbBuffering := true, pc := HBuffering(rounds + 1))
      else h.(pc := HOpenGate)
    case HOpenGate => h.(isJbBuffering := false, pc := HResize)
    case HResize => h.(jbSize := if doubles then JitterBuffer.Twice(h.jbSize) else h.jbSize, pc := HWait)
    case HWait => h.(pc := if h.jb == [] then HAsleep else HGet)
    case HAsleep => h
    case HGet => HighGet(h, isRunning)
    case HForward(w) => h.(pc := HSample(w))
    case HSample(w) => h.(pc := HPace(w, TimestampOf(WorkQueue.Head(h.jb)), |h.added|))
    case HPace(w, next, seen) => HighPace(h, w, next, seen)
    case HSend(w) => h.(sent := h.sent + [w], lastTimestamp := w.timestamp, pc := HSleep)
    case HSleep => h.(pc := HTop)
    case HDone(_) => h
    case HCrashed => h
  }

  function LowGet(l: LowSide, isRunning: bool, cleared: bool): LowSide {
    match WorkQueue.Head(l.queue)
    case None => l.(pc := LTop, gets := CountGet(l.gets, isRunning))
    case Some(w) =>
      l.(queue := WorkQueue.Popped(l.queue), pc := if w.Sentinel? then LDone else LSend(w),
         gets := CountGet(l.gets, isRunning),
         before := if cleared then l.before else l.before + [w], after := if cleared then l.after + [w] else l.after)
  }

  /** `due` is the decision of the frame-skipping counters. */
  function LowStep(l: LowSide, isRunning: bool, cleared: bool, due: bool): LowSide {
    match l.pc
    case LTop => l.(pc := if isRunning then LWait else LDone)
    case LWait => l.(pc := if l.queue == [] then LAsleep else LGet)
    case LAsleep => l
    case LGet => LowGet(l, isRunning, cleared)
    case LSend(w) => l.(sent := if due || (w.Frame? && w.isKey) then l.sent + [w] else l.sent, pc := LTop)
    case LDone => l
  }

  function AudioGet(a: AudioSide, isRunning: bool): AudioSide {
    match WorkQueue.Head(a.queue)
    case None => a.(pc := ATop, gets := CountGet(a.gets, isRunning))
    case Some(w) =>
      a.(queue := WorkQueue.Popped(a.queue), taken := a.taken + [w], pc := if w.Sentinel? then ADone else AGate(w),
         gets := CountGet(a.gets, isRunning))
  }

  function AudioStep(a: AudioSide, isRunning: bool, isJbBuffering: bool): AudioSide {
    match a.pc
    case ATop => a.(pc := if isRunning then AWait else ADone)
    case AWait => a.(pc := if a.queue == [] then AAsleep else AGet)
    case AAsleep => a
    case AGet => AudioGet(a, isRunning)
    case AGate(w) => if isJbBuffering && isRunning then a else a.(pc := ASend(w))
    case ASend(w) => a.(sent := a.sent + [w], pc := ASleep)
    case ASleep => a.(pc := ATop)
    case ADone => a
  }

  // ----- the steps -----

  datatype Step =
    | Video(work: Work)       // agora_send_video
    | Sound(work: Work)       // agora_send_audio
    | Stop                    // agora_disconnect: the flag, then the sentinels
    | TellVideo(sentinel: Work)
    | ClearLow
    | TellLow(sentinel: Work)
    | TellAudio(sentinel: Work)
    | High(idle: bool, full: bool, doubles: bool)
    | Low(due: bool)
    | Audio
    | WakeHigh | WakeLow | WakeAudio  // spurious wake-ups

  predicate Enabled(s: State, step: Step) {
    match step
    case Video(work) => s.main == DRun && work.Frame?
    case Sound(work) => s.main == DRun && work.Frame?
    case Stop => s.main == DRun
    case TellVideo(w) => s.main == DStopped && w.Sentinel?
    case ClearLow => s.main == DVideoTold && s.dual
    case TellLow(w) => s.main == DLowCleared && w.Sentinel?
    case TellAudio(w) => s.main == (if s.dual then DLowTold else DVideoTold) && w.Sentinel?
    case High(_, _, _) => !s.high.pc.HDone? && s.high.pc != HAsleep && s.high.pc != HCrashed
    case Low(_) => s.low.pc != LDone && s.low.pc != LAsleep
    case Audio => s.audio.pc != ADone && s.audio.pc != AAsleep
    case WakeHigh => s.high.pc == HAsleep
    case WakeLow => s.low.pc == LAsleep
    case WakeAudio => s.audio.pc == AAsleep
  }

  predicate Cleared(s: State) {
    s.main == DLowCleared || s.main == DLowTold || (s.main == DDone && s.dual)
  }

  /** The low queue as the high thread leaves it. */
  function Forward(s: State): LowSide {
    if s.dual && s.high.pc.HForward?
    then AddLow(s.low, s.high.pc.work).(forwarded := s.low.forwarded + [s.high.pc.work])
    else s.low
  }

  function Apply(s: State, step: Step): State
    requires Enabled(s, step)
  {
    match step
    case Video(w) => s.(high := AddVideo(s.high, w))
    case Sound(w) => s.(audio := AddAudio(s.audio, w))
    case Stop => s.(isRunning := false, main := DStopped)
    case TellVideo(w) => s.(high := AddVideo(s.high, w), main := DVideoTold)
    case ClearLow => s.(low := s.low.(dropped := s.low.queue, queue := []), main := DLowCleared)
    case TellLow(w) => s.(low := AddLow(s.low, w), main := DLowTold)
    case TellAudio(w) => s.(audio := AddAudio(s.audio, w), main := DDone)
    case High(idle, full, doubles) =>
      s.(high := HighStep(s.high, s.isRunning, idle, full, doubles), low := Forward(s))
    case Low(due) => s.(low := LowStep(s.low, s.isRunning, Cleared(s), due))
    case Audio => s.(audio := AudioStep(s.audio, s.isRunning, s.high.isJbBuffering))
    case WakeHigh => s.(high := s.high.(pc := HWait))
    case WakeLow => s.(low := s.low.(pc := LWait))
    case WakeAudio => s.(audio := s.audio.(pc := AWait))
  }

  /** The steps can be taken one after the other, from the given state. */
  predicate CanRun(s: State, steps: seq<Step>)
    decreases |steps|
  {
    steps == [] || (Enabled(s, steps[0]) && CanRun(Apply(s, steps[0]), steps[1..]))
  }

  function Run(s: State, steps: seq<Step>): State
    requires CanRun(s, steps)
    decreases |steps|
  {
    if steps == [] then s else Run(Apply(s, steps[0]), steps[1..])
  }
}
