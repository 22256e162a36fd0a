/** What every interleaving of the pipeline delivers. */
module Delivery {
  import opened Bytes
  import opened Pipeline
  import opened Wrappers
  import Pacing
  import JitterBuffer

  predicate AllFrames(works: seq<Work>) {
    forall i :: 0 <= i < |works| ==> works[i].Frame?
  }

  // ----- the high thread -----

  /** The item the high thread has taken and not yet sent. */
  function InHand(pc: HighPc): seq<Work> {
    match pc
    case HForward(w) => [w]
    case HSample(w) => [w]
    case HPace(w, _, _) => [w]
    case HSend(w) => [w]
    case HDone(hand) => hand
    case _ => []
  }

  /** Nothing added to the video queue is lost, doubled or reordered; the thread never takes from
      an empty queue. */
  predicate QueueKept(h: HighSide) {
    && h.added == h.popped + h.jb
    && (h.pc == HAsleep ==> h.jb == [])
    && (h.pc == HGet ==> h.jb != [])
    && h.pc != HCrashed
  }

  /** What was taken has been sent, in order, but for the item in hand. */
  predicate SentKept(h: HighSide) {
    && h.popped == h.sent + InHand(h.pc)
    && AllFrames(h.sent)
    && (h.pc.HSend? ==> h.pc.work.Frame?)
    && (h.pc.HDone? ==> h.pc.hand == [] || (|h.pc.hand| == 1 && h.pc.hand[0].Sentinel?))
  }

  lemma QueueKeptByAdd(h: HighSide, w: Work)
    requires QueueKept(h)
    ensures QueueKept(AddVideo(h, w))
  {
    Assoc(h.popped, h.jb, [w]);
  }

  lemma QueueKeptByStep(h: HighSide, isRunning: bool, idle: bool, full: bool, doubles: bool)
    requires QueueKept(h)
    ensures QueueKept(HighStep(h, isRunning, idle, full, doubles))
  {
    if h.pc == HGet {
      assert h.jb == [h.jb[0]] + h.jb[1..];
      Assoc(h.popped, [h.jb[0]], h.jb[1..]);
    }
  }

  lemma SentKeptByStep(h: HighSide, isRunning: bool, idle: bool, full: bool, doubles: bool)
    requires QueueKept(h) && SentKept(h)
    ensures SentKept(HighStep(h, isRunning, idle, full, doubles))
  {
    AppendNothing(h.sent);
    if h.pc.HSend? {
      AppendNothing(h.sent + [h.pc.work]);
    }
  }

  /** There is one sentinel at most, and it comes last. */
  predicate SentinelLast(added: seq<Work>, told: bool) {
    if told then added != [] && added[|added| - 1].Sentinel? && AllFrames(added[..|added| - 1])
    else AllFrames(added)
  }

  lemma SentinelLastByAdd(added: seq<Work>, w: Work)
    requires SentinelLast(added, false)
    ensures SentinelLast(added + [w], w.Sentinel?)
  {
    assert (added + [w])[..|added|] == added;
  }

  // ----- pacing -----

  /** The timestamp of the frame before frame k. */
  function TimestampBefore(added: seq<Work>, k: nat): int
    requires k <= |added|
  {
    if k == 0 then 0 else added[k - 1].timestamp
  }

  /** The interval frame k is paced with: the distance to the frame behind it, if there was one and
      it has another timestamp, and otherwise the distance to the frame before it. */
  function Interval(added: seq<Work>, k: nat, seen: nat): int
    requires k < seen <= |added|
  {
    var current := added[k].timestamp;
    if k + 1 < seen && added[k + 1].timestamp != current then added[k + 1].timestamp - current
    else current - TimestampBefore(added, k)
  }

  /** Call k of GetNextSamplingPoint is about frame k, sees the frame behind it exactly if that has
      arrived, and takes the length of the queue then or a little later. */
  predicate PaceIs(added: seq<Work>, p: Pace, k: nat) {
    && k < p.seen <= |added|
    && p.current == added[k].timestamp && p.last == TimestampBefore(added, k)
    && p.next == (if k + 1 < p.seen then Some(added[k + 1].timestamp) else None)
    && p.seen - (k + 1) <= p.size <= |added| - (k + 1)
    && Pacing.Lasts(p.sleep, Interval(added, k, p.seen), p.size, p.jbSize)
  }

  /** What the thread knows between looking at the head and at the length of the queue. */
  predicate LookedAhead(h: HighSide) {
    h.pc.HPace? ==>
      && |h.popped| <= h.pc.seen <= |h.added|
      && h.pc.next == (if |h.popped| < h.pc.seen then Some(h.added[|h.popped|].timestamp) else None)
  }

  /** The high thread looks at the head of the queue, in the state the queue is in at that step. */
  lemma LooksAtHead(h: HighSide, isRunning: bool, idle: bool, full: bool, doubles: bool)
    requires QueueKept(h) && h.pc.HSample?
    ensures HighStep(h, isRunning, idle, full, doubles) ==
            h.(pc := HPace(h.pc.work, if h.jb == [] then None else Some(h.added[|h.popped|].timestamp), |h.added|))
  {
    assert h.jb != [] ==> h.added[|h.popped|] == h.jb[0];
  }

  /** For a frame it then records what it saw, with the length of the queue and the buffer size of
      this step; nothing else adds to the record or changes it. */
  lemma RecordsPace(h: HighSide, isRunning: bool, idle: bool, full: bool, doubles: bool)
    ensures var h' := HighStep(h, isRunning, idle, full, doubles);
            if h.pc.HPace? && h.pc.work.Frame? then
              && |h'.paces| == |h.paces| + 1 && h'.paces[..|h.paces|] == h.paces
              && var p := h'.paces[|h.paces|];
                 p.next == h.pc.next && p.seen == h.pc.seen && p.size == |h.jb| && p.jbSize == h.jbSize
            else h'.paces == h.paces
  {
    match h.pc
    case HPace(_, _, _) => assert h.paces[..|h.paces|] == h.paces;
    case _ =>
  }

  predicate PacesKept(h: HighSide) {
    && |h.paces| == |h.sent| + (if h.pc.HSend? then 1 else 0)
    && |h.sent| <= |h.added|
    && h.lastTimestamp == TimestampBefore(h.added, |h.sent|)
    && LookedAhead(h)
    && forall k :: 0 <= k < |h.paces| ==> PaceIs(h.added, h.paces[k], k)
  }

  lemma PacesKeptByAdd(h: HighSide, w: Work)
    requires PacesKept(h)
    ensures PacesKept(AddVideo(h, w))
  {
    var added := h.added + [w];
    assert forall k :: 0 <= k < |h.added| ==> added[k] == h.added[k];
    forall k | 0 <= k < |h.paces|
      ensures PaceIs(added, h.paces[k], k)
    {
      assert PaceIs(h.added, h.paces[k], k);
    }
  }

  lemma PacesKeptBySample(h: HighSide, isRunning: bool, idle: bool, full: bool, doubles: bool)
    requires h.pc.HSample? && QueueKept(h) && PacesKept(h)
    ensures PacesKept(HighStep(h, isRunning, idle, full, doubles))
  {
    assert h.jb != [] ==> h.added[|h.popped|] == h.jb[0];
    assert |h.added| == |h.popped| + |h.jb|;
  }

  lemma PacesKeptByPace(h: HighSide, isRunning: bool, idle: bool, full: bool, doubles: bool)
    requires h.pc.HPace? && QueueKept(h) && SentKept(h) && PacesKept(h)
    ensures PacesKept(HighStep(h, isRunning, idle, full, doubles))
  {
    var w, k := h.pc.work, |h.sent|;
    assert h.popped[k] == w && h.added[k] == w;
    if w.Frame? {
      var p := HighPace(h, w, h.pc.next, h.pc.seen).paces[k];
      Pacing.SleepExactly(p.current, p.last, p.next, p.size, p.jbSize);
      assert |h.added| == |h.popped| + |h.jb|;
      assert PaceIs(h.added, p, k);
    }
  }

  lemma PacesKeptBySend(h: HighSide, isRunning: bool, idle: bool, full: bool, doubles: bool)
    requires h.pc.HSend? && QueueKept(h) && SentKept(h) && PacesKept(h)
    ensures PacesKept(HighStep(h, isRunning, idle, full, doubles))
  {
    assert h.popped[|h.sent|] == h.pc.work && h.added[|h.sent|] == h.pc.work;
  }

  lemma OtherSteps(h: HighSide, isRunning: bool, idle: bool, full: bool, doubles: bool)
    requires !h.pc.HSample? && !h.pc.HPace? && !h.pc.HSend?
    ensures var h' := HighStep(h, isRunning, idle, full, doubles);
            && h'.added == h.added && h'.sent == h.sent && h'.paces == h.paces
            && h'.lastTimestamp == h.lastTimestamp && !h'.pc.HPace? && !h'.pc.HSend?
  {
  }

  lemma PacesKeptByOther(h: HighSide, h': HighSide)
    requires PacesKept(h) && !h.pc.HSend? && !h'.pc.HPace? && !h'.pc.HSend?
    requires h'.added == h.added && h'.sent == h.sent && h'.paces == h.paces && h'.lastTimestamp == h.lastTimestamp
    ensures PacesKept(h')
  {
  }

  lemma PacesKeptByStep(h: HighSide, isRunning: bool, idle: bool, full: bool, doubles: bool)
    requires QueueKept(h) && SentKept(h) && PacesKept(h)
    ensures PacesKept(HighStep(h, isRunning, idle, full, doubles))
  {
    if h.pc.HSample? {
      PacesKeptBySample(h, isRunning, idle, full, doubles);
    } else if h.pc.HPace? {
      PacesKeptByPace(h, isRunning, idle, full, doubles);
    } else if h.pc.HSend? {
      PacesKeptBySend(h, isRunning, idle, full, doubles);
    } else {
      OtherSteps(h, isRunning, idle, full, doubles);
      PacesKeptByOther(h, HighStep(h, isRunning, idle, full, doubles));
    }
  }

  // ----- the low thread -----

  function FramesOf(works: seq<Work>): (frames: seq<Work>)
    ensures AllFrames(frames)
  {
    if works == [] then []
    else
      var last := works[|works| - 1];
      FramesOf(works[..|works| - 1]) + (if last.Frame? then [last] else [])
  }

  lemma {:induction false} FramesOfAppend(a: seq<Work>, b: seq<Work>)
    ensures FramesOf(a + b) == FramesOf(a) + FramesOf(b)
    decreases |b|
  {
    if b == [] {
      AppendNothing(a);
      AppendNothing(FramesOf(a));
    } else {
      var front, last := b[..|b| - 1], b[|b| - 1];
      assert (a + b)[..|a + b| - 1] == a + front;
      FramesOfAppend(a, front);
      Assoc(FramesOf(a), FramesOf(front), if last.Frame? then [last] else []);
    }
  }

  lemma FramesOfOne(w: Work)
    ensures FramesOf([w]) == if w.Frame? then [w] else []
  {
    assert [w][..0] == [];
    assert FramesOf([w][..0]) == [];
  }

  /** Every frame forwarded to the low queue is taken, dropped by the clearing or still queued, in
      that order; before the clearing nothing is dropped. */
  predicate LowKept(l: LowSide, cleared: bool) {
    && FramesOf(l.forwarded) == FramesOf(l.before) + (FramesOf(l.dropped) + FramesOf(l.after + l.queue))
    && (!cleared ==> l.after == [] && l.dropped == [] && l.forwarded == l.before + l.queue)
    && (l.pc == LAsleep ==> l.queue == [])
  }

  lemma LowKeptByAdd(l: LowSide, w: Work, forwarded: seq<Work>, cleared: bool)
    requires LowKept(l, cleared)
    requires forwarded == l.forwarded + [w] || (cleared && w.Sentinel? && forwarded == l.forwarded)
    ensures LowKept(AddLow(l, w).(forwarded := forwarded), cleared)
  {
    var one := FramesOf([w]);
    FramesOfOne(w);
    FramesOfAppend(l.forwarded, [w]);
    Assoc(l.after, l.queue, [w]);
    FramesOfAppend(l.after + l.queue, [w]);
    Assoc(l.before, l.queue, [w]);
    var rest := FramesOf(l.after + l.queue);
    Assoc(FramesOf(l.dropped), rest, one);
    Assoc(FramesOf(l.before), FramesOf(l.dropped) + rest, one);
    AppendNothing(FramesOf(l.forwarded));
    AppendNothing(rest);
  }

  lemma LowKeptByClear(l: LowSide)
    requires LowKept(l, false)
    ensures LowKept(l.(dropped := l.queue, queue := []), true)
  {
    AppendNothing(l.after);
    FramesOfAppend(l.before, l.queue);
    AppendNothing(FramesOf(l.queue));
  }

  lemma LowKeptByGet(l: LowSide, isRunning: bool, cleared: bool)
    requires LowKept(l, cleared) && l.pc == LGet && l.queue != []
    ensures LowKept(LowGet(l, isRunning, cleared), cleared)
  {
    var w, rest := l.queue[0], l.queue[1..];
    assert l.queue == [w] + rest;
    if cleared {
      Assoc(l.after, [w], rest);
    } else {
      Assoc(l.before, [w], rest);
      FramesOfAppend(l.before + [w], rest);
      EmptyFront(rest);
      EmptyFront(FramesOf(rest));
    }
  }

  lemma LowKeptByStep(l: LowSide, isRunning: bool, cleared: bool, due: bool)
    requires LowKept(l, cleared)
    ensures LowKept(LowStep(l, isRunning, cleared, due), cleared)
  {
    if l.pc == LGet && l.queue != [] {
      LowKeptByGet(l, isRunning, cleared);
    }
  }

  /** s is t with some elements left out. */
  predicate Subsequence(s: seq<Work>, t: seq<Work>) {
    if s == [] then true
    else if t == [] then false
    else
      var front := t[..|t| - 1];
      (s[|s| - 1] == t[|t| - 1] && Subsequence(s[..|s| - 1], front)) || Subsequence(s, front)
  }

  lemma SubsequenceGrows(s: seq<Work>, t: seq<Work>, w: Work)
    requires Subsequence(s, t)
    ensures Subsequence(s, t + [w]) && Subsequence(s + [w], t + [w])
  {
    assert (t + [w])[..|t|] == t && (s + [w])[..|s|] == s;
  }

  lemma {:induction false} SubsequenceExtends(s: seq<Work>, t: seq<Work>, u: seq<Work>)
    requires Subsequence(s, t)
    ensures Subsequence(s, t + u) && Subsequence(s + u, t + u)
    decreases |u|
  {
    if u == [] {
      AppendNothing(s);
      AppendNothing(t);
    } else {
      var front, last := u[..|u| - 1], u[|u| - 1];
      assert u == front + [last];
      Assoc(s, front, [last]);
      Assoc(t, front, [last]);
      SubsequenceExtends(s, t, front);
      SubsequenceGrows(s, t + front, last);
      SubsequenceGrows(s + front, t + front, last);
    }
  }

  lemma {:induction false} SubsequenceTransitive(r: seq<Work>, s: seq<Work>, t: seq<Work>)
    requires Subsequence(r, s) && Subsequence(s, t)
    ensures Subsequence(r, t)
    decreases |t|
  {
    if r == [] {
    } else {
      var r', s', t' := r[..|r| - 1], s[..|s| - 1], t[..|t| - 1];
      if Subsequence(s, t') {
        SubsequenceTransitive(r, s, t');
      } else if Subsequence(r, s') {
        SubsequenceTransitive(r, s', t');
      } else {
        SubsequenceTransitive(r', s', t');
      }
    }
  }

  lemma Adjoin(t: seq<Work>, a: nat, b: nat)
    requires a <= b <= |t|
    ensures t[..a] + t[a..b] == t[..b]
  {
  }

  lemma ExtendsBySlice(s: seq<Work>, t: seq<Work>, a: nat, b: nat)
    requires a <= b <= |t| && Subsequence(s, t[..a])
    ensures Subsequence(s, t[..b]) && Subsequence(s + t[a..b], t[..b])
  {
    SubsequenceExtends(s, t[..a], t[a..b]);
    Adjoin(t, a, b);
  }

  /** A front and a later stretch. */
  lemma SlicesAreSubsequence(t: seq<Work>, a: nat, b: nat, c: nat)
    requires a <= b <= c <= |t|
    ensures Subsequence(t[..a] + t[b..c], t)
  {
    EmptyFront(t[..a]);
    assert t[0..a] == t[..a];
    ExtendsBySlice([], t, 0, a);
    ExtendsBySlice(t[..a], t, a, b);
    ExtendsBySlice(t[..a], t, b, c);
    ExtendsBySlice(t[..a] + t[b..c], t, c, |t|);
    assert t[..|t|] == t;
  }

  /** Everything taken from the low queue; without the item being encoded. */
  function LowTaken(l: LowSide): seq<Work> {
    l.before + l.after
  }

  /** The low stream leaves frames out and does nothing else. */
  predicate LowSentKept(l: LowSide) {
    var taken := LowTaken(l);
    if l.pc.LSend?
    then taken != [] && taken[|taken| - 1] == l.pc.work && l.pc.work.Frame?
         && Subsequence(l.sent, FramesOf(taken[..|taken| - 1]))
    else Subsequence(l.sent, FramesOf(taken))
  }

  lemma TakenByGet(l: LowSide, isRunning: bool, cleared: bool)
    requires l.queue != [] && (!cleared ==> l.after == [])
    ensures LowTaken(LowGet(l, isRunning, cleared)) == LowTaken(l) + [l.queue[0]]
  {
    Assoc(l.before, l.after, [l.queue[0]]);
    AppendNothing(l.before);
    AppendNothing(l.before + [l.queue[0]]);
  }

  lemma LowSentKeptByGet(l: LowSide, isRunning: bool, cleared: bool)
    requires l.pc == LGet && LowSentKept(l) && (!cleared ==> l.after == [])
    ensures LowSentKept(LowGet(l, isRunning, cleared))
  {
    if l.queue != [] {
      var taken, w := LowTaken(l), l.queue[0];
      TakenByGet(l, isRunning, cleared);
      assert (taken + [w])[..|taken|] == taken;
      AppendNothing(FramesOf(taken));
    }
  }

  lemma LowSentKeptByStep(l: LowSide, isRunning: bool, cleared: bool, due: bool)
    requires LowSentKept(l) && (!cleared ==> l.after == [])
    ensures LowSentKept(LowStep(l, isRunning, cleared, due))
  {
    if l.pc == LGet {
      LowSentKeptByGet(l, isRunning, cleared);
    } else if l.pc.LSend? {
      var taken := LowTaken(l);
      SubsequenceGrows(l.sent, FramesOf(taken[..|taken| - 1]), l.pc.work);
    }
  }

  function KeyFrames(works: seq<Work>): seq<Work> {
    if works == [] then []
    else
      var last := works[|works| - 1];
      KeyFrames(works[..|works| - 1]) + (if last.Frame? && last.isKey then [last] else [])
  }

  lemma OneMoreKeyFrame(works: seq<Work>, w: Work)
    ensures KeyFrames(works + [w]) == KeyFrames(works) + (if w.Frame? && w.isKey then [w] else [])
  {
    assert (works + [w])[..|works|] == works;
  }

  /** Everything the low thread has taken and dealt with. */
  function LowHandled(l: LowSide): seq<Work> {
    var taken := LowTaken(l);
    if l.pc.LSend? && taken != [] then taken[..|taken| - 1] else taken
  }

  /** The frames left out are not key frames. */
  predicate KeysKept(l: LowSide) {
    KeyFrames(l.sent) == KeyFrames(LowHandled(l))
  }

  lemma KeysKeptByGet(l: LowSide, isRunning: bool, cleared: bool)
    requires l.pc == LGet && KeysKept(l) && (!cleared ==> l.after == [])
    ensures KeysKept(LowGet(l, isRunning, cleared))
  {
    if l.queue != [] {
      var taken, w := LowTaken(l), l.queue[0];
      TakenByGet(l, isRunning, cleared);
      assert (taken + [w])[..|taken|] == taken;
      OneMoreKeyFrame(taken, w);
      AppendNothing(KeyFrames(taken));
    }
  }

  lemma KeysKeptBySend(l: LowSide, isRunning: bool, cleared: bool, due: bool)
    requires l.pc.LSend? && LowSentKept(l) && KeysKept(l)
    ensures KeysKept(LowStep(l, isRunning, cleared, due))
  {
    var taken, w := LowTaken(l), l.pc.work;
    var front := taken[..|taken| - 1];
    assert taken == front + [w];
    OneMoreKeyFrame(front, w);
    OneMoreKeyFrame(l.sent, w);
    AppendNothing(KeyFrames(front));
  }

  lemma KeysKeptByStep(l: LowSide, isRunning: bool, cleared: bool, due: bool)
    requires LowSentKept(l) && KeysKept(l) && (!cleared ==> l.after == [])
    ensures KeysKept(LowStep(l, isRunning, cleared, due))
  {
    if l.pc == LGet {
      KeysKeptByGet(l, isRunning, cleared);
    } else if l.pc.LSend? {
      KeysKeptBySend(l, isRunning, cleared, due);
    }
  }

  // ----- the audio thread -----

  function AudioInHand(pc: AudioPc): seq<Work> {
    match pc
    case AGate(w) => [w]
    case ASend(w) => [w]
    case _ => []
  }

  predicate AudioKept(a: AudioSide) {
    && a.added == a.taken + a.queue
    && (a.pc == AAsleep ==> a.queue == [])
    && (a.pc == AGet ==> a.queue != [])
    && AllFrames(a.sent + AudioInHand(a.pc))
    && (a.taken == a.sent + AudioInHand(a.pc)
        || (a.pc == ADone && |a.taken| == |a.sent| + 1 && a.taken[|a.sent|].Sentinel? && a.sent == a.taken[..|a.sent|]))
  }

  lemma AudioKeptByAdd(a: AudioSide, w: Work)
    requires AudioKept(a)
    ensures AudioKept(AddAudio(a, w))
  {
    Assoc(a.taken, a.queue, [w]);
  }

  lemma AudioKeptByStep(a: AudioSide, isRunning: bool, isJbBuffering: bool)
    requires AudioKept(a)
    ensures AudioKept(AudioStep(a, isRunning, isJbBuffering))
  {
    AppendNothing(a.sent);
    if a.pc == AGet {
      assert a.queue == [a.queue[0]] + a.queue[1..];
      Assoc(a.taken, [a.queue[0]], a.queue[1..]);
    } else if a.pc.ASend? {
      AppendNothing(a.sent + [a.pc.work]);
    }
  }

  // ----- the gate -----

  /** The gate is closed only while the high thread waits for its buffer to fill, and then from its
      first round of waiting on. */
  predicate GateKept(h: HighSide) {
    && (h.isJbBuffering ==> h.pc.HBuffering? || h.pc == HOpenGate)
    && (h.pc.HBuffering? ==> h.pc.rounds <= JitterBuffer.MAX_ITERATIONS)
    && (h.pc.HBuffering? && h.pc.rounds > 0 ==> h.isJbBuffering)
  }

  // ----- all together -----

  predicate VideoTold(s: State) {
    s.main != DRun && s.main != DStopped
  }

  predicate HighInv(h: HighSide, told: bool) {
    QueueKept(h) && SentKept(h) && PacesKept(h) && GateKept(h) && SentinelLast(h.added, told)
  }

  predicate LowInv(l: LowSide, cleared: bool) {
    LowKept(l, cleared) && LowSentKept(l) && KeysKept(l)
  }

  /** What the high thread has taken is what it has forwarded, but for the item it is forwarding. */
  predicate Linked(dual: bool, h: HighSide, l: LowSide) {
    if dual then h.popped == l.forwarded + (if h.pc.HForward? then [h.pc.work] else [])
    else l.forwarded == [] && l.queue == [] && l.pc == LDone
  }

  predicate Inv(s: State) {
    && HighInv(s.high, VideoTold(s))
    && LowInv(s.low, Cleared(s))
    && AudioKept(s.audio)
    && Linked(s.dual, s.high, s.low)
    && (s.main == DLowCleared || s.main == DLowTold ==> s.dual)
    && (s.isRunning <==> s.main == DRun)
  }

  lemma InvInit(dual: bool, jbSize: nat)
    ensures Inv(Init(dual, jbSize))
  {
    assert FramesOf([]) == [];
  }

  lemma HighInvByAdd(h: HighSide, w: Work)
    requires HighInv(h, false)
    ensures HighInv(AddVideo(h, w), w.Sentinel?)
  {
    QueueKeptByAdd(h, w);
    PacesKeptByAdd(h, w);
    SentinelLastByAdd(h.added, w);
  }

  lemma AddedOnlyByMain(h: HighSide, isRunning: bool, idle: bool, full: bool, doubles: bool)
    requires GateKept(h)
    ensures HighStep(h, isRunning, idle, full, doubles).added == h.added
    ensures GateKept(HighStep(h, isRunning, idle, full, doubles))
  {
  }

  lemma HighInvByStep(h: HighSide, told: bool, isRunning: bool, idle: bool, full: bool, doubles: bool)
    requires HighInv(h, told)
    ensures HighInv(HighStep(h, isRunning, idle, full, doubles), told)
  {
    QueueKeptByStep(h, isRunning, idle, full, doubles);
    SentKeptByStep(h, isRunning, idle, full, doubles);
    PacesKeptByStep(h, isRunning, idle, full, doubles);
    AddedOnlyByMain(h, isRunning, idle, full, doubles);
  }

  lemma HighInvByWake(h: HighSide, told: bool)
    requires HighInv(h, told) && h.pc == HAsleep
    ensures HighInv(h.(pc := HWait), told)
  {
  }

  lemma HighInvByVideo(s: State, step: Step)
    requires HighInv(s.high, VideoTold(s)) && Enabled(s, step) && step.Video?
    ensures HighInv(Apply(s, step).high, VideoTold(Apply(s, step)))
  {
    HighInvByAdd(s.high, step.work);
  }

  lemma HighInvByTell(s: State, step: Step)
    requires HighInv(s.high, VideoTold(s)) && Enabled(s, step) && step.TellVideo?
    ensures HighInv(Apply(s, step).high, VideoTold(Apply(s, step)))
  {
    HighInvByAdd(s.high, step.sentinel);
  }

  lemma HighInvByHigh(s: State, step: Step)
    requires HighInv(s.high, VideoTold(s)) && Enabled(s, step) && step.High?
    ensures HighInv(Apply(s, step).high, VideoTold(Apply(s, step)))
  {
    HighInvByStep(s.high, VideoTold(s), s.isRunning, step.idle, step.full, step.doubles);
  }

  lemma HighInvByWakeUp(s: State, step: Step)
    requires HighInv(s.high, VideoTold(s)) && Enabled(s, step) && step.WakeHigh?
    ensures HighInv(Apply(s, step).high, VideoTold(Apply(s, step)))
  {
    HighInvByWake(s.high, VideoTold(s));
  }

  lemma OthersKeepHigh(s: State, step: Step)
    requires Enabled(s, step) && !step.Video? && !step.TellVideo? && !step.High? && !step.WakeHigh?
    ensures Apply(s, step).high == s.high && VideoTold(Apply(s, step)) == VideoTold(s)
  {
  }

  lemma HighInvStep(s: State, step: Step)
    requires HighInv(s.high, VideoTold(s)) && Enabled(s, step)
    ensures HighInv(Apply(s, step).high, VideoTold(Apply(s, step)))
  {
    if step.Video? {
      HighInvByVideo(s, step);
    } else if step.TellVideo? {
      HighInvByTell(s, step);
    } else if step.High? {
      HighInvByHigh(s, step);
    } else if step.WakeHigh? {
      HighInvByWakeUp(s, step);
    } else {
      OthersKeepHigh(s, step);
    }
  }

  lemma LowInvByAdd(l: LowSide, w: Work, forwarded: seq<Work>, cleared: bool)
    requires LowInv(l, cleared)
    requires forwarded == l.forwarded + [w] || (cleared && w.Sentinel? && forwarded == l.forwarded)
    ensures LowInv(AddLow(l, w).(forwarded := forwarded), cleared)
  {
    LowKeptByAdd(l, w, forwarded, cleared);
    var l' := AddLow(l, w).(forwarded := forwarded);
    assert LowTaken(l') == LowTaken(l) && l'.sent == l.sent && (l'.pc == l.pc || (!l'.pc.LSend? && !l.pc.LSend?));
  }

  lemma LowInvByClear(l: LowSide)
    requires LowInv(l, false)
    ensures LowInv(l.(dropped := l.queue, queue := []), true)
  {
    LowKeptByClear(l);
  }

  lemma LowInvByWake(l: LowSide, cleared: bool)
    requires LowInv(l, cleared) && l.pc == LAsleep
    ensures LowInv(l.(pc := LWait), cleared)
  {
  }

  lemma LowInvStep(s: State, step: Step)
    requires LowInv(s.low, Cleared(s)) && Enabled(s, step)
    requires s.main == DLowCleared || s.main == DLowTold ==> s.dual
    ensures LowInv(Apply(s, step).low, Cleared(Apply(s, step)))
  {
    match step
    case ClearLow => LowInvByClear(s.low);
    case TellLow(w) => LowInvByAdd(s.low, w, s.low.forwarded, true);
    case Low(due) =>
      LowKeptByStep(s.low, s.isRunning, Cleared(s), due);
      LowSentKeptByStep(s.low, s.isRunning, Cleared(s), due);
      KeysKeptByStep(s.low, s.isRunning, Cleared(s), due);
    case High(_, _, _) =>
      if s.dual && s.high.pc.HForward? {
        LowInvByAdd(s.low, s.high.pc.work, s.low.forwarded + [s.high.pc.work], Cleared(s));
      }
    case WakeLow => LowInvByWake(s.low, Cleared(s));
    case _ =>
  }

  lemma AudioKeptStep(s: State, step: Step)
    requires AudioKept(s.audio) && Enabled(s, step)
    ensures AudioKept(Apply(s, step).audio)
  {
    match step
    case Sound(w) => AudioKeptByAdd(s.audio, w);
    case TellAudio(w) => AudioKeptByAdd(s.audio, w);
    case Audio => AudioKeptByStep(s.audio, s.isRunning, s.high.isJbBuffering);
    case _ =>
  }

  lemma LinkedByHigh(s: State, idle: bool, full: bool, doubles: bool)
    requires Linked(s.dual, s.high, s.low) && QueueKept(s.high)
    ensures Linked(s.dual, HighStep(s.high, s.isRunning, idle, full, doubles), Forward(s))
  {
    AppendNothing(s.low.forwarded);
    if s.high.pc.HForward? {
      AppendNothing(s.low.forwarded + [s.high.pc.work]);
    }
  }

  lemma LinkedStep(s: State, step: Step)
    requires Linked(s.dual, s.high, s.low) && QueueKept(s.high) && Enabled(s, step)
    requires s.main == DLowCleared ==> s.dual
    ensures Linked(s.dual, Apply(s, step).high, Apply(s, step).low)
  {
    if step.High? {
      LinkedByHigh(s, step.idle, step.full, step.doubles);
    }
  }

  lemma InvStep(s: State, step: Step)
    requires Inv(s) && Enabled(s, step)
    ensures Inv(Apply(s, step))
  {
    HighInvStep(s, step);
    LowInvStep(s, step);
    AudioKeptStep(s, step);
    LinkedStep(s, step);
  }

  /** Every run keeps the invariant. */
  lemma {:induction false} InvAlways(s: State, steps: seq<Step>)
    requires Inv(s) && CanRun(s, steps)
    ensures Inv(Run(s, steps))
    decreases |steps|
  {
    if steps == [] {
    } else {
      InvStep(s, steps[0]);
      InvAlways(Apply(s, steps[0]), steps[1..]);
    }
  }

  lemma {:induction false} DualIsKept(s: State, steps: seq<Step>)
    requires CanRun(s, steps)
    ensures Run(s, steps).dual == s.dual
    decreases |steps|
  {
    if steps == [] {
    } else {
      DualIsKept(Apply(s, steps[0]), steps[1..]);
    }
  }
}
