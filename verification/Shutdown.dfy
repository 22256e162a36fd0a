/** Whole-run results about the pipeline: what the streams contain, how long the sleeps are, and that
    a disconnect ends every thread. */
module Shutdown {
  import opened Bytes
  import opened Pipeline
  import opened Delivery
  import Pacing
  import JitterBuffer

  // ----- delivery -----

  /** The items the nginx thread has put into the video queue. */
  function VideoInputs(steps: seq<Step>): seq<Work> {
    if steps == [] then []
    else
      (match steps[0]
       case Video(w) => [w]
       case TellVideo(w) => [w]
       case _ => []) + VideoInputs(steps[1..])
  }

  lemma {:induction false} AddedAreInputs(s: State, steps: seq<Step>)
    requires Inv(s) && CanRun(s, steps)
    ensures Run(s, steps).high.added == s.high.added + VideoInputs(steps)
    decreases |steps|
  {
    if steps == [] {
      AppendNothing(s.high.added);
    } else {
      InvStep(s, steps[0]);
      AddedAreInputs(Apply(s, steps[0]), steps[1..]);
      match steps[0]
      case Video(w) => Assoc(s.high.added, [w], VideoInputs(steps[1..]));
      case TellVideo(w) => Assoc(s.high.added, [w], VideoInputs(steps[1..]));
      case High(idle, full, doubles) =>
        AddedOnlyByMain(s.high, s.isRunning, idle, full, doubles);
        EmptyFront(VideoInputs(steps[1..]));
      case _ => EmptyFront(VideoInputs(steps[1..]));
    }
  }

  function SoundInputs(steps: seq<Step>): seq<Work> {
    if steps == [] then []
    else
      (match steps[0]
       case Sound(w) => [w]
       case TellAudio(w) => [w]
       case _ => []) + SoundInputs(steps[1..])
  }

  lemma {:induction false} AudioAddedAreInputs(s: State, steps: seq<Step>)
    requires CanRun(s, steps)
    ensures Run(s, steps).audio.added == s.audio.added + SoundInputs(steps)
    decreases |steps|
  {
    if steps == [] {
      AppendNothing(s.audio.added);
    } else {
      AudioAddedAreInputs(Apply(s, steps[0]), steps[1..]);
      match steps[0]
      case Sound(w) => Assoc(s.audio.added, [w], SoundInputs(steps[1..]));
      case TellAudio(w) => Assoc(s.audio.added, [w], SoundInputs(steps[1..]));
      case _ => EmptyFront(SoundInputs(steps[1..]));
    }
  }

  lemma SentIsPrefix(h: HighSide)
    requires QueueKept(h) && SentKept(h)
    ensures |h.sent| <= |h.added| && h.sent == h.added[..|h.sent|] && |h.popped| <= |h.sent| + 1
  {
    assert h.popped[..|h.sent|] == h.sent;
    assert h.added[..|h.sent|] == h.popped[..|h.sent|];
  }

  /** In every interleaving: what was added is what was taken and what is queued, and the high
      stream is a prefix of the frames added. */
  lemma HighStreamIsPrefix(dual: bool, jbSize: nat, steps: seq<Step>)
    requires CanRun(Init(dual, jbSize), steps)
    ensures var h := Run(Init(dual, jbSize), steps).high;
            && VideoInputs(steps) == h.popped + h.jb
            && |h.sent| <= |VideoInputs(steps)| && h.sent == VideoInputs(steps)[..|h.sent|]
            && AllFrames(h.sent)
            && |h.popped| <= |h.sent| + 1
            && h.pc != HCrashed
  {
    var s := Init(dual, jbSize);
    InvInit(dual, jbSize);
    InvAlways(s, steps);
    AddedAreInputs(s, steps);
    EmptyFront(VideoInputs(steps));
    SentIsPrefix(Run(s, steps).high);
  }

  lemma Cut<T>(p: seq<T>, q: seq<T>, r: seq<T>, t: seq<T>, u: seq<T>)
    ensures var all := (p + (q + (r + t))) + u;
            && |p| + |q| + |r| <= |all|
            && all[..|p|] + all[|p| + |q|..|p| + |q| + |r|] == p + r
  {
  }

  lemma LowPieces(l: LowSide, cleared: bool, rest: seq<Work>)
    requires LowKept(l, cleared)
    ensures FramesOf(l.forwarded + rest) ==
            (FramesOf(l.before) + (FramesOf(l.dropped) + (FramesOf(l.after) + FramesOf(l.queue)))) + FramesOf(rest)
    ensures FramesOf(LowTaken(l)) == FramesOf(l.before) + FramesOf(l.after)
  {
    FramesOfAppend(l.forwarded, rest);
    FramesOfAppend(l.after, l.queue);
    FramesOfAppend(l.before, l.after);
  }

  /** `rest` is what the high thread has not forwarded yet. */
  lemma LowSlices(l: LowSide, cleared: bool, rest: seq<Work>) returns (a: nat, b: nat, c: nat)
    requires LowKept(l, cleared)
    ensures var frames := FramesOf(l.forwarded + rest);
            && a <= b <= c <= |frames| && b == a + |FramesOf(l.dropped)|
            && FramesOf(LowTaken(l)) == frames[..a] + frames[b..c]
  {
    LowPieces(l, cleared, rest);
    var p, q, r := FramesOf(l.before), FramesOf(l.dropped), FramesOf(l.after);
    a, b, c := |p|, |p| + |q|, |p| + |q| + |r|;
    Cut(p, q, r, FramesOf(l.queue), FramesOf(rest));
  }

  lemma LowSentFromTaken(l: LowSide)
    requires LowSentKept(l)
    ensures Subsequence(l.sent, FramesOf(LowTaken(l)))
  {
    if l.pc.LSend? {
      var taken := LowTaken(l);
      SubsequenceGrows(l.sent, FramesOf(taken[..|taken| - 1]), l.pc.work);
    }
  }

  /** The low stream in every interleaving, with dual streaming: the frames taken from the low
      queue are the frames added up to some point, and then, if a disconnect cleared the queue in
      between, a later stretch of them; what is sent leaves out some of those, but no key frame. */
  lemma LowStreamIsOrdered(jbSize: nat, steps: seq<Step>) returns (a: nat, b: nat, c: nat)
    requires CanRun(Init(true, jbSize), steps)
    ensures var s := Run(Init(true, jbSize), steps);
            var frames := FramesOf(VideoInputs(steps));
            && a <= b <= c <= |frames| && b == a + |FramesOf(s.low.dropped)|
            && FramesOf(LowTaken(s.low)) == frames[..a] + frames[b..c]
            && Subsequence(s.low.sent, FramesOf(LowTaken(s.low))) && Subsequence(s.low.sent, frames)
            && KeyFrames(s.low.sent) == KeyFrames(LowHandled(s.low))
            && (!Cleared(s) ==> s.low.dropped == [] && s.low.forwarded == LowTaken(s.low) + s.low.queue)
  {
    var s0 := Init(true, jbSize);
    InvInit(true, jbSize);
    InvAlways(s0, steps);
    AddedAreInputs(s0, steps);
    EmptyFront(VideoInputs(steps));
    DualIsKept(s0, steps);
    var s := Run(s0, steps);
    var hand := if s.high.pc.HForward? then [s.high.pc.work] else [];
    Assoc(s.low.forwarded, hand, s.high.jb);
    a, b, c := LowSlices(s.low, Cleared(s), hand + s.high.jb);
    LowSentFromTaken(s.low);
    AppendNothing(s.low.before);
    var frames := FramesOf(VideoInputs(steps));
    SlicesAreSubsequence(frames, a, b, c);
    SubsequenceTransitive(s.low.sent, frames[..a] + frames[b..c], frames);
  }

  lemma AudioSentIsPrefix(a: AudioSide)
    requires AudioKept(a)
    ensures |a.sent| <= |a.added| && a.sent == a.added[..|a.sent|] && AllFrames(a.sent)
  {
    assert (a.sent + AudioInHand(a.pc))[..|a.sent|] == a.sent;
    assert a.added[..|a.sent|] == a.taken[..|a.sent|];
    assert forall i :: 0 <= i < |a.sent| ==> (a.sent + AudioInHand(a.pc))[i] == a.sent[i];
  }

  /** The audio stream is a prefix of the packets added. */
  lemma AudioStreamIsPrefix(dual: bool, jbSize: nat, steps: seq<Step>)
    requires CanRun(Init(dual, jbSize), steps)
    ensures var a := Run(Init(dual, jbSize), steps).audio;
            && SoundInputs(steps) == a.taken + a.queue
            && |a.sent| <= |SoundInputs(steps)| && a.sent == SoundInputs(steps)[..|a.sent|] && AllFrames(a.sent)
            && |a.taken| <= |a.sent| + 1
  {
    InvInit(dual, jbSize);
    InvAlways(Init(dual, jbSize), steps);
    AudioAddedAreInputs(Init(dual, jbSize), steps);
    EmptyFront(SoundInputs(steps));
    AudioSentIsPrefix(Run(Init(dual, jbSize), steps).audio);
  }

  // ----- pacing -----

  function Timestamps(added: seq<Work>, from: nat, to: nat): (r: seq<int>)
    requires from <= to < |added|
    ensures |r| == to - from + 1
    ensures forall k :: 0 <= k < |r| ==> r[k] == added[from + k].timestamp
  {
    seq(to - from + 1, k requires 0 <= k <= to - from => added[from + k].timestamp)
  }

  function Sleeps(paces: seq<Pace>, from: nat, to: nat): (r: seq<int>)
    requires from <= to <= |paces|
    ensures |r| == to - from
    ensures forall k :: 0 <= k < |r| ==> r[k] == paces[from + k].sleep
  {
    seq(to - from, k requires 0 <= k < to - from => paces[from + k].sleep)
  }

  /** Frames from..to - 1 each found a later frame queued when they were paced. */
  predicate Fed(h: HighSide, from: nat, to: nat) {
    && from <= to <= |h.paces| && to < |h.added|
    && forall k :: from <= k < to ==>
         h.paces[k].next.Some? && h.added[k].timestamp < h.added[k + 1].timestamp
  }

  lemma PaceIsSleepFor(h: HighSide, k: nat)
    requires PacesKept(h) && k < |h.paces| && h.paces[k].next.Some? && k + 1 < |h.added|
    requires h.added[k].timestamp < h.added[k + 1].timestamp
    ensures Pacing.SleepFor(h.added[k].timestamp, h.added[k + 1].timestamp, h.paces[k].sleep)
  {
    var p := h.paces[k];
    assert PaceIs(h.added, p, k);
    Pacing.SleepIsSleepFor(p.current, p.last, p.next.value, p.size, p.jbSize);
  }

  lemma SleepsArePaced(h: HighSide, from: nat, to: nat)
    requires PacesKept(h) && Fed(h, from, to)
    ensures Pacing.Paced(Timestamps(h.added, from, to), Sleeps(h.paces, from, to))
  {
    var ts, sleeps := Timestamps(h.added, from, to), Sleeps(h.paces, from, to);
    forall k | 0 <= k < |sleeps|
      ensures Pacing.SleepFor(ts[k], ts[k + 1], sleeps[k])
    {
      PaceIsSleepFor(h, from + k);
    }
  }

  lemma SleepsFollowTimestamps(h: HighSide, from: nat, to: nat)
    requires PacesKept(h) && Fed(h, from, to)
    ensures var total, advance := Pacing.Sum(Sleeps(h.paces, from, to)),
                                  h.added[to].timestamp - h.added[from].timestamp;
            total <= advance && 100 * total >= 95 * advance - 99 * (to - from)
  {
    SleepsArePaced(h, from, to);
    var ts := Timestamps(h.added, from, to);
    assert ts[0] == h.added[from].timestamp && ts[to - from] == h.added[to].timestamp;
    Pacing.SleepsTelescope(ts, Sleeps(h.paces, from, to));
  }

  /** While the queue is fed and timestamps increase, the sleeps add up to the advance of the
      timestamps, less five percent and a millisecond per frame at most, in every interleaving and
      for every pattern of speed-ups and resizings. */
  lemma PacingInEveryRun(dual: bool, jbSize: nat, steps: seq<Step>, from: nat, to: nat)
    requires CanRun(Init(dual, jbSize), steps) && Fed(Run(Init(dual, jbSize), steps).high, from, to)
    ensures var h := Run(Init(dual, jbSize), steps).high;
            var total, advance := Pacing.Sum(Sleeps(h.paces, from, to)),
                                  h.added[to].timestamp - h.added[from].timestamp;
            total <= advance && 100 * total >= 95 * advance - 99 * (to - from)
  {
    InvInit(dual, jbSize);
    InvAlways(Init(dual, jbSize), steps);
    SleepsFollowTimestamps(Run(Init(dual, jbSize), steps).high, from, to);
  }

  /** In every run each sleep is the one for its frame: the distance to the next frame if that had
      arrived (and has another timestamp), and otherwise that to the frame before; all of it unless
      the queue held more than the buffer size at that distance. */
  lemma PacesInEveryRun(dual: bool, jbSize: nat, steps: seq<Step>)
    requires CanRun(Init(dual, jbSize), steps)
    ensures var h, inputs := Run(Init(dual, jbSize), steps).high, VideoInputs(steps);
            && |h.sent| <= |h.paces| <= |h.sent| + 1
            && forall k :: 0 <= k < |h.paces| ==> PaceIs(inputs, h.paces[k], k)
  {
    InvInit(dual, jbSize);
    InvAlways(Init(dual, jbSize), steps);
    AddedAreInputs(Init(dual, jbSize), steps);
    EmptyFront(VideoInputs(steps));
  }

  /** In particular a frame that left the queue empty sleeps the distance to the frame before it, or,
      if the queue has filled past the buffer size in between, 95 percent of that. */
  lemma EmptiedQueueRepeatsInterval(dual: bool, jbSize: nat, steps: seq<Step>, k: nat)
    requires CanRun(Init(dual, jbSize), steps)
    requires 0 < k < |Run(Init(dual, jbSize), steps).high.paces|
    requires Run(Init(dual, jbSize), steps).high.paces[k].next.None?
    ensures var p, inputs := Run(Init(dual, jbSize), steps).high.paces[k], VideoInputs(steps);
            && k < |inputs|
            && var interval := inputs[k].timestamp - inputs[k - 1].timestamp;
               && (p.size * interval <= p.jbSize ==> p.sleep == interval)
               && (p.size * interval > p.jbSize ==> 100 * p.sleep <= 95 * interval < 100 * (p.sleep + 1))
  {
    PacesInEveryRun(dual, jbSize, steps);
    assert PaceIs(VideoInputs(steps), Run(Init(dual, jbSize), steps).high.paces[k], k);
  }

  // ----- shutdown -----

  /** A sentinel is on its way to the thread. */
  predicate HasSentinel(queue: seq<Work>) {
    exists i :: 0 <= i < |queue| && queue[i].Sentinel?
  }

  /** A thread that has been told has ended, or has the sentinel in its queue. */
  predicate LowWillEnd(l: LowSide, told: bool) {
    told && l.pc != LDone ==> HasSentinel(l.queue)
  }

  predicate LowTold(s: State) {
    s.main == DLowTold || (s.main == DDone && s.dual)
  }

  predicate AudioWillEnd(a: AudioSide, told: bool) {
    told && a.pc != ADone ==> HasSentinel(a.queue)
  }

  predicate HighGetsOnce(h: HighSide) {
    && h.gets <= 1
    && (h.gets == 1 ==> h.pc.HForward? || h.pc.HSample? || h.pc.HPace? || h.pc.HSend? || h.pc == HSleep
                        || h.pc == HTop || h.pc.HDone? || h.pc == HCrashed)
  }

  predicate LowGetsOnce(l: LowSide) {
    l.gets <= 1 && (l.gets == 1 ==> l.pc == LTop || l.pc.LSend? || l.pc == LDone)
  }

  predicate AudioGetsOnce(a: AudioSide) {
    a.gets <= 1 && (a.gets == 1 ==> a.pc == ATop || a.pc.AGate? || a.pc.ASend? || a.pc == ASleep || a.pc == ADone)
  }

  /** Who has been told will end; and a thread that has taken an item since the stop waits no more. */
  predicate ShutdownInv(s: State) {
    && LowWillEnd(s.low, LowTold(s)) && AudioWillEnd(s.audio, s.main == DDone)
    && (s.isRunning ==> s.high.gets == 0 && s.low.gets == 0 && s.audio.gets == 0)
    && HighGetsOnce(s.high) && LowGetsOnce(s.low) && AudioGetsOnce(s.audio)
  }

  lemma HighGetsOnceByStep(h: HighSide, isRunning: bool, idle: bool, full: bool, doubles: bool)
    requires HighGetsOnce(h) && (isRunning ==> h.gets == 0)
    ensures HighGetsOnce(HighStep(h, isRunning, idle, full, doubles))
    ensures isRunning ==> HighStep(h, isRunning, idle, full, doubles).gets == 0
  {
  }

  lemma SentinelStays(queue: seq<Work>, w: Work)
    ensures HasSentinel(queue) ==> HasSentinel(queue + [w])
    ensures w.Sentinel? ==> HasSentinel(queue + [w])
    ensures HasSentinel(queue) && queue[0].Frame? ==> HasSentinel(queue[1..])
  {
    if HasSentinel(queue) {
      var i :| 0 <= i < |queue| && queue[i].Sentinel?;
      assert (queue + [w])[i].Sentinel?;
      if queue[0].Frame? {
        assert queue[1..][i - 1].Sentinel?;
      }
    }
    if w.Sentinel? {
      assert (queue + [w])[|queue|].Sentinel?;
    }
  }

  /** A step of the low thread, which ends when it takes a sentinel. */
  lemma LowThreadShutdown(l: LowSide, isRunning: bool, cleared: bool, due: bool)
    requires LowGetsOnce(l) && (isRunning ==> l.gets == 0) && l.pc != LDone
    ensures var l' := LowStep(l, isRunning, cleared, due);
            && LowGetsOnce(l') && (isRunning ==> l'.gets == 0)
            && (HasSentinel(l.queue) && l'.pc != LDone ==> HasSentinel(l'.queue))
  {
    SentinelStays(l.queue, Sentinel(0));
  }

  lemma LowAddShutdown(l: LowSide, w: Work, forwarded: seq<Work>, told: bool)
    requires LowGetsOnce(l) && (LowWillEnd(l, told) || w.Sentinel?)
    ensures var l' := AddLow(l, w).(forwarded := forwarded);
            LowGetsOnce(l') && l'.gets == l.gets && LowWillEnd(l', told)
  {
    SentinelStays(l.queue, w);
  }

  lemma LowShutdownStep(s: State, step: Step)
    requires Linked(s.dual, s.high, s.low) && Enabled(s, step) && (s.isRunning <==> s.main == DRun)
    requires LowWillEnd(s.low, LowTold(s)) && LowGetsOnce(s.low) && (s.isRunning ==> s.low.gets == 0)
    ensures var s' := Apply(s, step);
            LowWillEnd(s'.low, LowTold(s')) && LowGetsOnce(s'.low) && (s'.isRunning ==> s'.low.gets == 0)
  {
    match step
    case TellLow(w) => LowAddShutdown(s.low, w, s.low.forwarded, true);
    case High(_, _, _) =>
      if s.dual && s.high.pc.HForward? {
        LowAddShutdown(s.low, s.high.pc.work, s.low.forwarded + [s.high.pc.work], LowTold(s));
      }
    case Low(due) => LowThreadShutdown(s.low, s.isRunning, Cleared(s), due);
    case _ =>
  }

  lemma AudioThreadShutdown(a: AudioSide, isRunning: bool, isJbBuffering: bool)
    requires AudioGetsOnce(a) && (isRunning ==> a.gets == 0) && a.pc != ADone
    ensures var a' := AudioStep(a, isRunning, isJbBuffering);
            && AudioGetsOnce(a') && (isRunning ==> a'.gets == 0)
            && (HasSentinel(a.queue) && a'.pc != ADone ==> HasSentinel(a'.queue))
  {
    SentinelStays(a.queue, Sentinel(0));
  }

  lemma AudioShutdownStep(s: State, step: Step)
    requires Enabled(s, step) && AudioWillEnd(s.audio, s.main == DDone)
    requires AudioGetsOnce(s.audio) && (s.isRunning ==> s.audio.gets == 0)
    ensures var s' := Apply(s, step);
            AudioWillEnd(s'.audio, s'.main == DDone) && AudioGetsOnce(s'.audio) && (s'.isRunning ==> s'.audio.gets == 0)
  {
    match step
    case TellAudio(w) => SentinelStays(s.audio.queue, w);
    case Audio => AudioThreadShutdown(s.audio, s.isRunning, s.high.isJbBuffering);
    case _ =>
  }

  lemma HighShutdownStep(s: State, step: Step)
    requires ShutdownInv(s) && Enabled(s, step)
    ensures var s' := Apply(s, step);
            HighGetsOnce(s'.high) && (s'.isRunning ==> s'.high.gets == 0)
  {
    if step.High? {
      HighGetsOnceByStep(s.high, s.isRunning, step.idle, step.full, step.doubles);
    }
  }

  lemma ShutdownStep(s: State, step: Step)
    requires Inv(s) && ShutdownInv(s) && Enabled(s, step)
    ensures ShutdownInv(Apply(s, step))
  {
    LowShutdownStep(s, step);
    AudioShutdownStep(s, step);
    HighShutdownStep(s, step);
  }

  lemma {:induction false} ShutdownAlways(s: State, steps: seq<Step>)
    requires Inv(s) && ShutdownInv(s) && CanRun(s, steps)
    ensures Inv(Run(s, steps)) && ShutdownInv(Run(s, steps))
    decreases |steps|
  {
    if steps == [] {
    } else {
      InvStep(s, steps[0]);
      ShutdownStep(s, steps[0]);
      ShutdownAlways(Apply(s, steps[0]), steps[1..]);
    }
  }

  /** Behind the flag what a thread has taken grows with its count. */
  lemma GetsCount(s: State, step: Step)
    requires !s.isRunning && Enabled(s, step)
    ensures var s' := Apply(s, step);
            && !s'.isRunning
            && |s'.high.popped| - |s.high.popped| <= s'.high.gets - s.high.gets
            && |LowTaken(s'.low)| - |LowTaken(s.low)| <= s'.low.gets - s.low.gets
            && |s'.audio.taken| - |s.audio.taken| <= s'.audio.gets - s.audio.gets
  {
  }

  lemma {:induction false} GetsCountAlways(s: State, steps: seq<Step>)
    requires !s.isRunning && CanRun(s, steps)
    ensures var s' := Run(s, steps);
            && |s'.high.popped| - |s.high.popped| <= s'.high.gets - s.high.gets
            && |LowTaken(s'.low)| - |LowTaken(s.low)| <= s'.low.gets - s.low.gets
            && |s'.audio.taken| - |s.audio.taken| <= s'.audio.gets - s.audio.gets
    decreases |steps|
  {
    if steps == [] {
    } else {
      GetsCount(s, steps[0]);
      GetsCountAlways(Apply(s, steps[0]), steps[1..]);
    }
  }

  /** From any reachable state with the flag cleared, and in any interleaving, no thread takes more
      than one item. */
  lemma OneMoreGet(dual: bool, jbSize: nat, before: seq<Step>, after: seq<Step>)
    requires CanRun(Init(dual, jbSize), before) && !Run(Init(dual, jbSize), before).isRunning
    requires CanRun(Run(Init(dual, jbSize), before), after)
    ensures var s, s' := Run(Init(dual, jbSize), before), Run(Run(Init(dual, jbSize), before), after);
            && |s'.high.popped| <= |s.high.popped| + 1
            && |LowTaken(s'.low)| <= |LowTaken(s.low)| + 1
            && |s'.audio.taken| <= |s.audio.taken| + 1
  {
    InvInit(dual, jbSize);
    ShutdownAlways(Init(dual, jbSize), before);
    ShutdownAlways(Run(Init(dual, jbSize), before), after);
    GetsCountAlways(Run(Init(dual, jbSize), before), after);
  }

  // ----- the end of all threads -----

  function HighRank(pc: HighPc): nat {
    match pc
    case HDone(_) => 0
    case HCrashed => 0
    case HTop => 1
    case HSleep => 2
    case HSend(_) => 3
    case HPace(_, _, _) => 4
    case HSample(_) => 5
    case HForward(_) => 6
    case HGet => 7
    case HWait => 8
    case HAsleep => 9
    case HResize => 9
    case HOpenGate => 10
    case HBuffering(_) => 11
    case HCheck => 12
  }

  function LowRank(pc: LowPc): nat {
    match pc
    case LDone => 0
    case LTop => 1
    case LSend(_) => 2
    case LGet => 3
    case LWait => 4
    case LAsleep => 5
  }

  function AudioRank(pc: AudioPc): nat {
    match pc
    case ADone => 0
    case ATop => 1
    case ASleep => 2
    case ASend(_) => 3
    case AGate(_) => 4
    case AGet => 5
    case AWait => 6
    case AAsleep => 7
  }

  function Rank(s: State): nat {
    HighRank(s.high.pc) + LowRank(s.low.pc) + AudioRank(s.audio.pc)
  }

  /** Once everyone has been told, the high thread cannot wait for ever: its queue holds the
      sentinel until it has taken it. */
  lemma HighHasWork(h: HighSide)
    requires HighInv(h, true) && (h.pc == HWait || h.pc == HAsleep)
    ensures h.jb != []
  {
    AppendNothing(h.sent);
    assert h.popped == h.sent;
    assert h.added[|h.added| - 1] !in h.sent;
  }

  lemma HighRankDrops(h: HighSide, idle: bool, full: bool, doubles: bool)
    requires HighInv(h, true) && !h.pc.HDone? && h.pc != HAsleep && h.pc != HCrashed
    ensures HighRank(HighStep(h, false, idle, full, doubles).pc) < HighRank(h.pc)
  {
    if h.pc == HWait {
      HighHasWork(h);
    }
  }

  lemma LowRankDrops(l: LowSide, cleared: bool, due: bool)
    requires l.pc != LDone && l.pc != LAsleep && HasSentinel(l.queue)
    ensures LowRank(LowStep(l, false, cleared, due).pc) < LowRank(l.pc)
  {
  }

  lemma AudioRankDrops(a: AudioSide, isJbBuffering: bool)
    requires a.pc != ADone && a.pc != AAsleep && HasSentinel(a.queue)
    ensures AudioRank(AudioStep(a, false, isJbBuffering).pc) < AudioRank(a.pc)
  {
  }

  lemma RankDropsByHigh(s: State, idle: bool, full: bool, doubles: bool)
    requires HighInv(s.high, true) && !s.isRunning && Enabled(s, High(idle, full, doubles))
    ensures Rank(Apply(s, High(idle, full, doubles))) < Rank(s)
  {
    HighRankDrops(s.high, idle, full, doubles);
    assert LowRank(Forward(s).pc) <= LowRank(s.low.pc);
  }

  lemma RankDrops(s: State, step: Step)
    requires Inv(s) && ShutdownInv(s) && s.main == DDone && Enabled(s, step)
    ensures Rank(Apply(s, step)) < Rank(s)
  {
    match step
    case High(idle, full, doubles) => RankDropsByHigh(s, idle, full, doubles);
    case Low(due) => LowRankDrops(s.low, Cleared(s), due);
    case Audio => AudioRankDrops(s.audio, s.high.isJbBuffering);
    case _ =>
  }

  /** After a disconnect each thread that has not ended can take a step (none of them sleeps), and
      every step of any thread brings the end nearer. */
  lemma ShutdownProgress(s: State)
    requires Inv(s) && ShutdownInv(s) && s.main == DDone
    ensures s.high.pc.HDone? || Enabled(s, High(false, false, false))
    ensures s.low.pc == LDone || Enabled(s, Low(false))
    ensures s.audio.pc == ADone || Enabled(s, Audio)
    ensures forall step :: Enabled(s, step) ==> Rank(Apply(s, step)) < Rank(s)
  {
    if s.high.pc == HWait || s.high.pc == HAsleep {
      HighHasWork(s.high);
    }
    forall step | Enabled(s, step)
      ensures Rank(Apply(s, step)) < Rank(s)
    {
      RankDrops(s, step);
    }
  }

  /** A disconnect has been completed. */
  predicate Disconnected(s: State) {
    Inv(s) && ShutdownInv(s) && s.main == DDone
  }

  lemma RankIsBounded(s: State)
    ensures Rank(s) <= 24
  {
    assert HighRank(s.high.pc) <= 12 && LowRank(s.low.pc) <= 5 && AudioRank(s.audio.pc) <= 7;
  }

  lemma DisconnectedStep(s: State, step: Step)
    requires Disconnected(s) && Enabled(s, step)
    ensures Disconnected(Apply(s, step)) && Rank(Apply(s, step)) < Rank(s)
  {
    InvStep(s, step);
    ShutdownStep(s, step);
    RankDrops(s, step);
  }

  lemma StuckMeansEnded(s: State)
    requires Disconnected(s)
    ensures (forall step :: !Enabled(s, step)) <==> s.high.pc.HDone? && s.low.pc == LDone && s.audio.pc == ADone
  {
    ShutdownProgress(s);
  }

  /** Every run after a disconnect is short, and when nothing can happen any more every thread has
      ended. */
  lemma {:induction false} ShutdownTerminates(s: State, steps: seq<Step>)
    requires Disconnected(s) && CanRun(s, steps)
    ensures |steps| <= Rank(s) <= 24
    ensures var s' := Run(s, steps);
            (forall step :: !Enabled(s', step)) <==>
            (s'.high.pc.HDone? && s'.low.pc == LDone && s'.audio.pc == ADone)
    decreases |steps|
  {
    RankIsBounded(s);
    if steps == [] {
      StuckMeansEnded(s);
    } else {
      DisconnectedStep(s, steps[0]);
      ShutdownTerminates(Apply(s, steps[0]), steps[1..]);
    }
  }

  /** Whoever produces frames or disconnects never waits, whatever the other threads are doing. */
  lemma ProducersNeverWait(s: State, w: Work)
    requires s.main == DRun && w.Frame?
    ensures Enabled(s, Video(w)) && Enabled(s, Sound(w)) && Enabled(s, Stop)
  {
  }

  /** The disconnecting thread itself never waits. */
  lemma DisconnectNeverWaits(s: State)
    requires s.main != DRun && s.main != DDone && (s.main == DLowCleared || s.main == DLowTold ==> s.dual)
    ensures exists step: Step :: Enabled(s, step) && Apply(s, step).main != s.main
  {
    var w := Sentinel(0);
    var step := match s.main
      case DStopped => TellVideo(w)
      case DVideoTold => if s.dual then ClearLow else TellAudio(w)
      case DLowCleared => TellLow(w)
      case _ => TellAudio(w);
    assert Enabled(s, step);
  }

  /** A disconnect ends all threads: whatever happened before it, at most 24 steps can follow its
      last one, and when no further step is possible every thread has ended. */
  lemma DisconnectEndsAllThreads(dual: bool, jbSize: nat, before: seq<Step>, after: seq<Step>)
    requires CanRun(Init(dual, jbSize), before) && Run(Init(dual, jbSize), before).main == DDone
    requires CanRun(Run(Init(dual, jbSize), before), after)
    ensures |after| <= 24
    ensures var s := Run(Run(Init(dual, jbSize), before), after);
            (forall step :: !Enabled(s, step)) <==>
            (s.high.pc.HDone? && s.low.pc == LDone && s.audio.pc == ADone)
  {
    InvInit(dual, jbSize);
    ShutdownAlways(Init(dual, jbSize), before);
    ShutdownTerminates(Run(Init(dual, jbSize), before), after);
  }
}
