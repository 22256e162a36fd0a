/** Which frames are re-encoded for the low stream: two 8-bit counters and the ratio of the frame
    rates. */
module Decimation {

  /** `ratio` is the predicted frame rate divided by the low one; `sending` holds while the low
      thread re-encodes a frame it has decided to send. */
  datatype Counters = Counters(high: nat, low: nat, sending: bool, ratio: real)

  function Start(ratio: real): Counters {
    Counters(0, 0, false, ratio)
  }

  /** Events in the order in which the three threads take them. The high thread has sent a frame;
      the low thread compares the counters; the low thread counts the frame it has re-encoded. At
      the end of a window the nginx thread updates the prediction and then clears the counters, one
      after the other. */
  datatype Event = HighSent | LowDecides(isKey: bool) | LowCounts | NewRatio(ratio: real) | ClearHigh | ClearLow

  function Scaled(n: nat, ratio: real): real {
    n as real * ratio
  }

  /** The test of the low thread. */
  predicate IsDue(c: Counters) {
    Scaled(c.low, c.ratio) < c.high as real
  }

  /** The low thread alternates: an event out of turn does nothing. */
  function Apply(c: Counters, e: Event): Counters {
    match e
    case HighSent => c.(high := (c.high + 1) % 256)
    case LowDecides(isKey) => if c.sending then c else c.(sending := IsDue(c) || isKey)
    case LowCounts => if c.sending then c.(low := (c.low + 1) % 256, sending := false) else c
    case NewRatio(ratio) => c.(ratio := ratio)
    case ClearHigh => c.(high := 0)
    case ClearLow => c.(low := 0)
  }

  function Run(events: seq<Event>, ratio: real): Counters {
    if events == [] then Start(ratio)
    else Apply(Run(events[..|events| - 1], ratio), events[|events| - 1])
  }

  /** All ratios are positive. */
  predicate Positive(events: seq<Event>, ratio: real) {
    ratio > 0.0 && forall e :: e in events && e.NewRatio? ==> e.ratio > 0.0
  }

  /** No counter runs over its eight bits. */
  predicate NeverWraps(events: seq<Event>, ratio: real) {
    if events == [] then true
    else
      var n := |events| - 1;
      var c := Run(events[..n], ratio);
      && NeverWraps(events[..n], ratio)
      && (events[n] == HighSent ==> c.high < 255) && (events[n] == LowCounts ==> c.low < 255)
  }

  /** The nginx thread is not between an update of the prediction and the end of the clearing. */
  predicate Settled(events: seq<Event>) {
    events == [] ||
    var last := events[|events| - 1];
    last == ClearLow || (!last.NewRatio? && last != ClearHigh && Settled(events[..|events| - 1]))
  }

  /** The decision is for a key frame that was not due. */
  predicate IsForced(c: Counters, e: Event) {
    e == LowDecides(true) && !c.sending && !IsDue(c)
  }

  /** The low counter is cleared with a frame still to be counted and none sent by the high thread
      since its counter was cleared. */
  predicate IsLeftOver(c: Counters, e: Event) {
    e == ClearLow && c.sending && c.high == 0
  }

  /** Frames sent in the window although none was due: forced key frames, and a frame left over from
      the window before. */
  function Extra(events: seq<Event>, ratio: real): nat {
    if events == [] then 0
    else
      var n := |events| - 1;
      var c := Run(events[..n], ratio);
      if events[n] == ClearLow then if IsLeftOver(c, ClearLow) then 1 else 0
      else Extra(events[..n], ratio) + (if IsForced(c, events[n]) then 1 else 0)
  }

  lemma OneMore(n: nat, ratio: real)
    ensures Scaled(n + 1, ratio) == Scaled(n, ratio) + ratio
    ensures ratio > 0.0 ==> Scaled(n, ratio) >= 0.0
  {
  }

  /** low * ratio < high + (1 + extra) * ratio, where a frame being sent counts as low. */
  predicate NotAhead(c: Counters, extra: nat) {
    && c.ratio > 0.0
    && Scaled(if c.sending then c.low + 1 else c.low, c.ratio) < c.high as real + Scaled(1 + extra, c.ratio)
  }

  lemma StepNotAhead(c: Counters, e: Event, extra: nat)
    requires NotAhead(c, extra) && !e.NewRatio? && e != ClearHigh && e != ClearLow
    requires (e == HighSent ==> c.high < 255) && (e == LowCounts ==> c.low < 255)
    ensures NotAhead(Apply(c, e), if IsForced(c, e) then extra + 1 else extra)
  {
    OneMore(c.low, c.ratio);
    OneMore(extra, c.ratio);
    OneMore(extra + 1, c.ratio);
  }

  /** The 8-bit count of frames sent starts again while frames have been counted as low. */
  predicate IsWrap(c: Counters, e: Event) {
    e == HighSent && c.high == 255 && (c.low > 0 || c.sending)
  }

  lemma ScaledAtLeast(n: nat, ratio: real)
    requires ratio > 0.0 && n > 0
    ensures Scaled(n, ratio) >= ratio
  {
    OneMore(n - 1, ratio);
  }

  lemma ScaledFew(ratio: real)
    ensures Scaled(0, ratio) == 0.0 && Scaled(1, ratio) == ratio
  {
  }

  lemma DecidingExactly(c: Counters, isKey: bool)
    requires NotAhead(c, 0)
    ensures NotAhead(Apply(c, LowDecides(isKey)), 0) <==> !IsForced(c, LowDecides(isKey))
  {
    OneMore(c.low, c.ratio);
    ScaledFew(c.ratio);
  }

  lemma CountingLow(c: Counters)
    requires NotAhead(c, 0) && c.low <= 255
    ensures NotAhead(Apply(c, LowCounts), 0)
  {
    ScaledFew(c.ratio);
    if c.sending {
      assert Apply(c, LowCounts).low == if c.low == 255 then 0 else c.low + 1;
    }
  }

  lemma CountingHigh(c: Counters)
    requires NotAhead(c, 0) && c.high <= 255
    ensures NotAhead(Apply(c, HighSent), 0) <==> !IsWrap(c, HighSent)
  {
    ScaledFew(c.ratio);
    assert Apply(c, HighSent).high == if c.high == 255 then 0 else c.high + 1;
    if IsWrap(c, HighSent) {
      ScaledAtLeast(if c.sending then c.low + 1 else c.low, c.ratio);
    }
  }

  /** What one event does to the bound, exactly. */
  lemma StepExactly(c: Counters, e: Event)
    requires NotAhead(c, 0) && c.high <= 255 && c.low <= 255 && !e.NewRatio? && e != ClearHigh && e != ClearLow
    ensures NotAhead(Apply(c, e), 0) <==> !IsForced(c, e) && !IsWrap(c, e)
  {
    if e.LowDecides? {
      DecidingExactly(c, e.isKey);
    } else if e == LowCounts {
      CountingLow(c);
    } else {
      CountingHigh(c);
    }
  }

  lemma ClearedIsNotAhead(c: Counters)
    requires c.ratio > 0.0
    ensures NotAhead(Apply(c, ClearLow), 0) <==> !IsLeftOver(c, ClearLow)
    ensures NotAhead(Apply(c, ClearLow), 1)
  {
    OneMore(0, c.ratio);
    OneMore(1, c.ratio);
  }

  lemma {:induction false} RunFits(events: seq<Event>, ratio: real)
    requires Positive(events, ratio)
    ensures Run(events, ratio).ratio > 0.0 && Run(events, ratio).high <= 255 && Run(events, ratio).low <= 255
  {
    if events == [] {
    } else {
      RunFits(events[..|events| - 1], ratio);
    }
  }

  /** The low stream never runs ahead by more than one frame, in every interleaving and across the
      clearing of the counters; each forced key frame adds one, and so does a frame left over. */
  lemma {:induction false} LowNeverRunsAhead(events: seq<Event>, ratio: real)
    requires Positive(events, ratio) && NeverWraps(events, ratio) && Settled(events)
    ensures NotAhead(Run(events, ratio), Extra(events, ratio))
  {
    if events == [] {
      OneMore(0, ratio);
    } else {
      var n := |events| - 1;
      RunFits(events[..n], ratio);
      if events[n] == ClearLow {
        ClearedIsNotAhead(Run(events[..n], ratio));
      } else {
        LowNeverRunsAhead(events[..n], ratio);
        StepNotAhead(Run(events[..n], ratio), events[n], Extra(events[..n], ratio));
      }
    }
  }

  /** The event makes the low stream run ahead. */
  predicate Overtakes(events: seq<Event>, e: Event, ratio: real) {
    var c := Run(events, ratio);
    (Settled(events) && (IsForced(c, e) || IsWrap(c, e))) || IsLeftOver(c, e)
  }

  predicate NoneOvertakes(events: seq<Event>, ratio: real) {
    if events == [] then true
    else
      var n := |events| - 1;
      NoneOvertakes(events[..n], ratio) && !Overtakes(events[..n], events[n], ratio)
  }

  /** At every moment outside a clearing low * ratio < high + ratio. */
  predicate NeverAhead(events: seq<Event>, ratio: real) {
    && (Settled(events) ==> NotAhead(Run(events, ratio), 0))
    && (events == [] || NeverAhead(events[..|events| - 1], ratio))
  }

  lemma LastOvertakes(events: seq<Event>, ratio: real)
    requires events != [] && Positive(events, ratio) && NeverAhead(events[..|events| - 1], ratio)
    ensures var n := |events| - 1;
            (Settled(events) ==> NotAhead(Run(events, ratio), 0)) <==> !Overtakes(events[..n], events[n], ratio)
  {
    var n := |events| - 1;
    var c, e := Run(events[..n], ratio), events[n];
    RunFits(events[..n], ratio);
    if e == ClearLow {
      ClearedIsNotAhead(c);
    } else if Settled(events) {
      StepExactly(c, e);
    }
  }

  /** The exact condition, wrapping counters included: the low stream never runs ahead in a run if
      and only if outside a clearing no key frame is forced and the count of frames sent does not
      start again behind low frames, and no frame is left over by a clearing. */
  lemma {:induction false} NeverAheadExactlyWhen(events: seq<Event>, ratio: real)
    requires Positive(events, ratio)
    ensures NeverAhead(events, ratio) <==> NoneOvertakes(events, ratio)
  {
    if events == [] {
      OneMore(0, ratio);
    } else {
      NeverAheadExactlyWhen(events[..|events| - 1], ratio);
      if NeverAhead(events[..|events| - 1], ratio) {
        LastOvertakes(events, ratio);
      }
    }
  }

  /** The prefixes NeverAhead is about. */
  lemma {:induction false} NeverAheadMeans(events: seq<Event>, ratio: real)
    ensures NeverAhead(events, ratio) <==>
            forall i :: 0 <= i <= |events| && Settled(events[..i]) ==> NotAhead(Run(events[..i], ratio), 0)
    decreases |events|
  {
    assert events[..|events|] == events;
    if events == [] {
    } else {
      var n := |events| - 1;
      NeverAheadMeans(events[..n], ratio);
      assert forall i :: 0 <= i <= n ==> events[..n][..i] == events[..i];
    }
  }

  lemma RunOneMore(events: seq<Event>, e: Event, ratio: real)
    ensures Run(events + [e], ratio) == Apply(Run(events, ratio), e)
  {
    assert (events + [e])[..|events|] == events;
  }

  /** Such a frame does make a difference: it is counted in a window in which nothing was sent. */
  lemma ClearingWhileSending(ratio: real)
    requires ratio > 0.0
    ensures var c := Run([HighSent, LowDecides(false), ClearHigh, ClearLow, LowCounts], ratio);
            c.low == 1 && c.high == 0 && !(Scaled(c.low, ratio) < c.high as real + ratio)
  {
    var e1, e2, e3, e4 := [HighSent], [HighSent, LowDecides(false)], [HighSent, LowDecides(false), ClearHigh],
                          [HighSent, LowDecides(false), ClearHigh, ClearLow];
    RunOneMore([], HighSent, ratio);
    RunOneMore(e1, LowDecides(false), ratio);
    RunOneMore(e2, ClearHigh, ratio);
    RunOneMore(e3, ClearLow, ratio);
    RunOneMore(e4, LowCounts, ratio);
    assert [] + [HighSent] == e1 && e1 + [LowDecides(false)] == e2 && e2 + [ClearHigh] == e3 && e3 + [ClearLow] == e4;
    assert e4 + [LowCounts] == [HighSent, LowDecides(false), ClearHigh, ClearLow, LowCounts];
    OneMore(0, ratio);
  }

  /** Delta frames only, each handled right after it was sent. */
  function Lockstep(n: nat): seq<Event> {
    if n == 0 then [] else Lockstep(n - 1) + [HighSent, LowDecides(false), LowCounts]
  }

  function Round(c: Counters): Counters {
    Apply(Apply(Apply(c, HighSent), LowDecides(false)), LowCounts)
  }

  lemma RunRound(n: nat, ratio: real)
    ensures Run(Lockstep(n + 1), ratio) == Round(Run(Lockstep(n), ratio))
  {
    var s := Lockstep(n);
    RunOneMore(s, HighSent, ratio);
    RunOneMore(s + [HighSent], LowDecides(false), ratio);
    RunOneMore(s + [HighSent] + [LowDecides(false)], LowCounts, ratio);
    assert s + [HighSent] + [LowDecides(false)] + [LowCounts] == Lockstep(n + 1);
  }

  predicate InStep(c: Counters, n: nat) {
    !c.sending && c.high == n && c.low <= n && n as real <= Scaled(c.low, c.ratio) < n as real + c.ratio
  }

  lemma StepInStep(c: Counters, n: nat)
    requires c.ratio >= 1.0 && n < 255 && InStep(c, n)
    ensures InStep(Round(c), n + 1)
  {
    OneMore(c.low, c.ratio);
  }

  /** In lockstep, with a low rate not above the predicted one, the low counter is the high one
      divided by the ratio and rounded up: neither ahead nor behind. */
  lemma {:induction false} LockstepIsExact(n: nat, ratio: real)
    requires ratio >= 1.0 && n <= 255
    ensures InStep(Run(Lockstep(n), ratio), n) && Run(Lockstep(n), ratio).ratio == ratio
  {
    if n == 0 {
    } else {
      LockstepIsExact(n - 1, ratio);
      RunRound(n - 1, ratio);
      StepInStep(Run(Lockstep(n - 1), ratio), n - 1);
    }
  }

  lemma AtMost(n: nat, ratio: real)
    requires ratio <= 1.0
    ensures Scaled(n, ratio) <= n as real
    ensures ratio < 1.0 && n > 0 ==> Scaled(n, ratio) < n as real
  {
  }

  /** With a low rate at or above the predicted one every frame is sent. */
  lemma {:induction false} LockstepSendsAll(n: nat, ratio: real)
    requires 0.0 < ratio <= 1.0 && n <= 255
    ensures Run(Lockstep(n), ratio) == Counters(n, n, false, ratio)
  {
    if n == 0 {
    } else {
      LockstepSendsAll(n - 1, ratio);
      RunRound(n - 1, ratio);
      OneMore(n - 1, ratio);
      AtMost(n - 1, ratio);
    }
  }

  /** The low stream keeps up, high <= low * ratio, if and only if the ratio is at least one. */
  lemma KeepsUpExactlyWhen(n: nat, ratio: real)
    requires 0.0 < ratio && 0 < n <= 255
    ensures var c := Run(Lockstep(n), ratio);
            c.high as real <= Scaled(c.low, ratio) <==> ratio >= 1.0
  {
    if ratio >= 1.0 {
      LockstepIsExact(n, ratio);
    } else {
      LockstepSendsAll(n, ratio);
      AtMost(n, ratio);
    }
  }
}
