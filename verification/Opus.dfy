/** Re-framing decoded audio: frames of 1024 samples per channel become packets of 960 through a
    carry buffer, and a flush behind every frame empties the buffer without looking at what it
    throws away. */
module Opus {
  import opened Arithmetic
  import opened Bytes

  const MAX_CHANNELS := 2
  const REMAINING_BYTES := 4096  // 1024 samples of two bytes for two channels
  const PACKET_MEMORY := 3840    // 960 samples of two bytes for two channels

  /** Packets handed to the encoder so far, and the bytes carried over. */
  datatype Framer = Framer(packets: seq<seq<byte>>, carry: seq<byte>)

  /** encode_opus: one packet from the carry and the front of the frame. */
  function Encode(f: Framer, frame: seq<byte>, packetBytes: nat): Framer
    requires |f.carry| <= packetBytes <= |f.carry| + |frame|
  {
    var free := packetBytes - |f.carry|;
    Framer(f.packets + [f.carry + frame[..free]], frame[free..])
  }

  /** flush_encode_opus: one more packet if there is one; the carry is then dropped. */
  function Flush(f: Framer, packetBytes: nat): Framer {
    if |f.carry| >= packetBytes then Framer(f.packets + [f.carry[..packetBytes]], []) else f
  }

  function Push(f: Framer, frame: seq<byte>, packetBytes: nat): (r: Framer)
    requires |f.carry| <= packetBytes <= |frame| && 0 < packetBytes
    ensures |r.carry| < packetBytes
  {
    Flush(Encode(f, frame, packetBytes), packetBytes)
  }

  predicate AllFrames(frames: seq<seq<byte>>, frameBytes: nat) {
    forall i :: 0 <= i < |frames| ==> |frames[i]| == frameBytes
  }

  /** A run over a list of frames. */
  function Run(frames: seq<seq<byte>>, frameBytes: nat, packetBytes: nat): (r: Framer)
    requires 0 < packetBytes <= frameBytes && AllFrames(frames, frameBytes)
    ensures |r.carry| < packetBytes
  {
    if frames == [] then Framer([], [])
    else Push(Run(frames[..|frames| - 1], frameBytes, packetBytes), frames[|frames| - 1], packetBytes)
  }

  lemma {:induction false} ConcatAppend(pieces: seq<seq<byte>>, last: seq<byte>)
    ensures Concat(pieces + [last]) == Concat(pieces) + last
  {
    if pieces == [] {
      assert [last][1..] == [];
    } else {
      assert (pieces + [last])[1..] == pieces[1..] + [last];
      ConcatAppend(pieces[1..], last);
    }
  }

  // ----- when nothing is lost -----

  /** Packets and carry together are the frames. */
  predicate Lossless(f: Framer, frames: seq<seq<byte>>) {
    Concat(f.packets) + f.carry == Concat(frames)
  }

  lemma EncodeLosesNothing(f: Framer, frames: seq<seq<byte>>, frame: seq<byte>, packetBytes: nat)
    requires |f.carry| <= packetBytes <= |f.carry| + |frame| && Lossless(f, frames)
    ensures Lossless(Encode(f, frame, packetBytes), frames + [frame])
  {
    var free := packetBytes - |f.carry|;
    ConcatAppend(f.packets, f.carry + frame[..free]);
    ConcatAppend(frames, frame);
    Assoc(Concat(f.packets), f.carry, frame[..free]);
    Assoc(Concat(f.packets) + f.carry, frame[..free], frame[free..]);
    assert frame[..free] + frame[free..] == frame;
  }

  /** The flush keeps everything if and only if the carry is no more than one packet. */
  lemma FlushLosesNothing(f: Framer, frames: seq<seq<byte>>, packetBytes: nat)
    requires Lossless(f, frames)
    ensures Lossless(Flush(f, packetBytes), frames) <==> |f.carry| <= packetBytes
  {
    if |f.carry| >= packetBytes {
      ConcatAppend(f.packets, f.carry[..packetBytes]);
      AppendNothing(Concat(f.packets) + f.carry[..packetBytes]);
      assert |f.carry| == packetBytes ==> f.carry[..packetBytes] == f.carry;
    }
  }

  /** One frame: the carry grows by the excess of a frame over a packet, until it fills a packet. */
  lemma PushStep(f: Framer, frames: seq<seq<byte>>, frame: seq<byte>, packetBytes: nat)
    requires |f.carry| < packetBytes <= |frame| && Lossless(f, frames)
    ensures var r := Push(f, frame, packetBytes);
            var filled := |f.carry| + (|frame| - packetBytes);
            && (Lossless(r, frames + [frame]) <==> filled <= packetBytes)
            && |r.packets| == |f.packets| + (if filled >= packetBytes then 2 else 1)
            && |r.carry| == if filled >= packetBytes then 0 else filled
  {
    EncodeLosesNothing(f, frames, frame, packetBytes);
    FlushLosesNothing(Encode(f, frame, packetBytes), frames + [frame], packetBytes);
  }

  /** Counting in steps of `excess`: `periods` of them make a packet. */
  lemma NextPeriod(n: nat, excess: nat, periods: nat)
    requires excess > 0 && periods > 0
    ensures var filled := excess * (n % periods) + excess;
            if (n + 1) % periods == 0
            then filled == excess * periods && (n + 1) / periods == n / periods + 1
            else filled == excess * ((n + 1) % periods) && filled < excess * periods
                 && (n + 1) / periods == n / periods
  {
    var q, r := n / periods, n % periods;
    assert n == q * periods + r;
    if r + 1 == periods {
      assert n + 1 == (q + 1) * periods;
      Quotient(n + 1, periods, q + 1, 0);
      assert excess * r + excess == excess * (r + 1);
    } else {
      Quotient(n + 1, periods, q, r + 1);
      assert excess * r + excess == excess * (r + 1);
      assert excess * (r + 1) < excess * periods;
    }
  }

  /** The sizes after a run, when `periods` excesses make a packet. */
  ghost predicate Counts(r: Framer, n: nat, excess: nat, periods: nat)
    requires periods > 0
  {
    |r.packets| == n + n / periods && |r.carry| == excess * (n % periods)
  }

  lemma CountsAdvance(f: Framer, r: Framer, n: nat, excess: nat, periods: nat)
    requires excess > 0 && periods > 0 && Counts(f, n, excess, periods)
    requires var filled := |f.carry| + excess;
             && |r.packets| == |f.packets| + (if filled >= excess * periods then 2 else 1)
             && |r.carry| == if filled >= excess * periods then 0 else filled
    ensures Counts(r, n + 1, excess, periods)
    ensures |f.carry| + excess <= excess * periods
  {
    NextPeriod(n, excess, periods);
  }

  /** If a whole number of excesses makes a packet, no run loses anything: the packets and the
      carry are the input, and their sizes follow from the number of frames. */
  lemma {:induction false} RunLosesNothing(frames: seq<seq<byte>>, frameBytes: nat, packetBytes: nat, periods: nat)
    requires 0 < packetBytes < frameBytes && AllFrames(frames, frameBytes)
    requires periods > 0 && packetBytes == (frameBytes - packetBytes) * periods
    ensures Lossless(Run(frames, frameBytes, packetBytes), frames)
    ensures Counts(Run(frames, frameBytes, packetBytes), |frames|, frameBytes - packetBytes, periods)
  {
    if frames == [] {
    } else {
      var n := |frames| - 1;
      var front := frames[..n];
      var f := Run(front, frameBytes, packetBytes);
      RunLosesNothing(front, frameBytes, packetBytes, periods);
      PushStep(f, front, frames[n], packetBytes);
      CountsAdvance(f, Push(f, frames[n], packetBytes), n, frameBytes - packetBytes, periods);
      assert front + [frames[n]] == frames;
    }
  }

  /** As long as the carry stays below a packet it grows by the excess. */
  lemma {:induction false} CarryGrows(frames: seq<seq<byte>>, frameBytes: nat, packetBytes: nat)
    requires 0 < packetBytes < frameBytes && AllFrames(frames, frameBytes)
    requires |frames| * (frameBytes - packetBytes) < packetBytes
    ensures var r := Run(frames, frameBytes, packetBytes);
            Lossless(r, frames) && |r.carry| == |frames| * (frameBytes - packetBytes)
  {
    if frames == [] {
    } else {
      var n, excess := |frames| - 1, frameBytes - packetBytes;
      var front := frames[..n];
      assert |frames| * excess == n * excess + excess;
      CarryGrows(front, frameBytes, packetBytes);
      PushStep(Run(front, frameBytes, packetBytes), front, frames[n], packetBytes);
      assert front + [frames[n]] == frames;
    }
  }

  lemma NotAMultiple(packetBytes: nat, excess: nat)
    requires excess > 0 && packetBytes % excess != 0
    ensures packetBytes / excess * excess < packetBytes < packetBytes / excess * excess + excess
  {
  }

  lemma NextFrameDrops(front: seq<seq<byte>>, frame: seq<byte>, frameBytes: nat, packetBytes: nat)
    requires 0 < packetBytes < frameBytes && AllFrames(front, frameBytes) && |frame| == frameBytes
    requires var f := Run(front, frameBytes, packetBytes);
             Lossless(f, front) && |f.carry| + (frameBytes - packetBytes) > packetBytes
    ensures AllFrames(front + [frame], frameBytes)
    ensures !Lossless(Run(front + [frame], frameBytes, packetBytes), front + [frame])
  {
    assert (front + [frame])[..|front|] == front;
    PushStep(Run(front, frameBytes, packetBytes), front, frame, packetBytes);
  }

  /** Otherwise the first flush that finds a full packet drops bytes. */
  lemma FlushDropsBytes(frameBytes: nat, packetBytes: nat) returns (frames: seq<seq<byte>>)
    requires 0 < packetBytes < frameBytes && packetBytes % (frameBytes - packetBytes) != 0
    ensures AllFrames(frames, frameBytes)
    ensures !Lossless(Run(frames, frameBytes, packetBytes), frames)
  {
    var excess := frameBytes - packetBytes;
    var silence: seq<byte> := seq(frameBytes, _ => 0);
    var front := seq(packetBytes / excess, _ => silence);
    NotAMultiple(packetBytes, excess);
    CarryGrows(front, frameBytes, packetBytes);
    frames := front + [silence];
    NextFrameDrops(front, silence, frameBytes, packetBytes);
  }

  /** The exact condition under which the unconditional reset of the carry is harmless. */
  lemma LosslessExactlyWhen(frameBytes: nat, packetBytes: nat)
    requires 0 < packetBytes < frameBytes
    ensures (forall frames: seq<seq<byte>> :: AllFrames(frames, frameBytes) ==>
               Lossless(Run(frames, frameBytes, packetBytes), frames))
       <==> packetBytes % (frameBytes - packetBytes) == 0
  {
    var excess := frameBytes - packetBytes;
    if packetBytes % excess == 0 {
      forall frames: seq<seq<byte>> | AllFrames(frames, frameBytes)
        ensures Lossless(Run(frames, frameBytes, packetBytes), frames)
      {
        assert packetBytes == excess * (packetBytes / excess);
        RunLosesNothing(frames, frameBytes, packetBytes, packetBytes / excess);
      }
    } else {
      var frames := FlushDropsBytes(frameBytes, packetBytes);
    }
  }

  /** 1024 samples of two bytes per channel. */
  function FrameBytes(channels: nat): nat {
    2048 * channels
  }

  /** 960 samples of two bytes per channel. */
  function PacketBytes(channels: nat): nat {
    1920 * channels
  }

  /** The gateway's own numbers: after n frames there are n + n/15 packets and the carry holds
      64 * (n mod 15) samples of two bytes per channel; 64 is 1024 - 960 and divides 960. */
  lemma ReframingLosesNothing(frames: seq<seq<byte>>, channels: nat)
    requires 1 <= channels <= MAX_CHANNELS && AllFrames(frames, FrameBytes(channels))
    ensures var r, n := Run(frames, FrameBytes(channels), PacketBytes(channels)), |frames|;
            && Concat(r.packets) + r.carry == Concat(frames)
            && |r.packets| == n + n / 15
            && |r.carry| == 2 * channels * 64 * (n % 15)
  {
    RunLosesNothing(frames, FrameBytes(channels), PacketBytes(channels), 15);
  }

  // ----- the code -----

  class AudioContext {
    const channels: nat
    var remainingCount: nat
    const remaining: array<byte>
    var packets: seq<seq<byte>>  // what the encoder has been given

    ghost predicate Valid()
      reads this, remaining
    {
      && 1 <= channels <= MAX_CHANNELS
      && remaining.Length == REMAINING_BYTES
      && remainingCount <= remaining.Length
    }

    ghost function State(): Framer
      requires Valid()
      reads this, remaining
    {
      Framer(packets, remaining[..remainingCount])
    }

    constructor (channelCount: nat)
      requires 1 <= channelCount <= MAX_CHANNELS
      ensures Valid() && fresh(remaining) && channels == channelCount && State() == Framer([], [])
    {
      channels := channelCount;
      remainingCount := 0;
      remaining := new byte[REMAINING_BYTES](_ => 0);
      packets := [];
    }

    /** The case with input: the carry, then the front of the input; its rest is carried over. */
    method FillFrom(input: array<byte>, inLength: nat, out: array<byte>)
      requires Valid() && out.Length >= PacketBytes(channels)
      requires out != remaining && input != remaining && out != input && inLength <= input.Length
      requires remainingCount <= PacketBytes(channels) <= remainingCount + inLength
      requires inLength <= remaining.Length
      modifies this`remainingCount, remaining, out
      ensures Valid()
      ensures var free := PacketBytes(channels) - old(remainingCount);
              && out[..PacketBytes(channels)] == old(remaining[..remainingCount]) + input[..free]
              && remaining[..remainingCount] == input[free..inLength]
    {
      var previous := remainingCount;
      Move(remaining, 0, out, 0, previous);
      var free := PacketBytes(channels) - previous;
      Move(input, 0, out, previous, free);
      assert out[..PacketBytes(channels)] == out[..previous] + out[previous..previous + free];
      remainingCount := inLength - free;
      Move(input, free, remaining, 0, remainingCount);
    }

    /** Fills `out` with the next packet: from the carry alone when there is no input. That case
        does not move the rest of the carry to the front. */
    method GetNextPacket(input: array?<byte>, inLength: nat, out: array<byte>)
      requires Valid() && out.Length >= PacketBytes(channels)
      requires out != remaining && input != remaining && out != input
      requires input != null ==> inLength <= input.Length
      requires input != null ==>
                 remainingCount <= PacketBytes(channels) <= remainingCount + inLength
                 && inLength <= remaining.Length
      modifies this`remainingCount, remaining, out
      ensures Valid()
      ensures input != null ==>
                var free := PacketBytes(channels) - old(remainingCount);
                && out[..PacketBytes(channels)] == old(remaining[..remainingCount]) + input[..free]
                && remaining[..remainingCount] == input[free..inLength]
      ensures input == null && old(remainingCount) >= PacketBytes(channels) ==>
                && out[..PacketBytes(channels)] == old(remaining[..PacketBytes(channels)])
                && remainingCount == old(remainingCount) - PacketBytes(channels)
                && remaining[..] == old(remaining[..])
      ensures input == null && old(remainingCount) < PacketBytes(channels) ==>
                remainingCount == old(remainingCount) && remaining[..] == old(remaining[..])
    {
      if input == null {
        if remainingCount < PacketBytes(channels) {
          return;
        }
        Move(remaining, 0, out, 0, PacketBytes(channels));
        remainingCount := remainingCount - PacketBytes(channels);
        return;
      }
      FillFrom(input, inLength, out);
    }

    method EncodeOpus(input: array<byte>)
      requires Valid() && remainingCount <= PacketBytes(channels)
      requires input != remaining && input.Length >= FrameBytes(channels)
      modifies this, remaining
      ensures Valid()
      ensures State() == Encode(old(State()), old(input[..FrameBytes(channels)]), PacketBytes(channels))
    {
      var temp := new byte[PACKET_MEMORY](_ => 0);
      GetNextPacket(input, FrameBytes(channels), temp);
      packets := packets + [temp[..PacketBytes(channels)]];
      ghost var free := PacketBytes(channels) - old(remainingCount);
      assert input[..FrameBytes(channels)][..free] == input[..free];
      assert input[..FrameBytes(channels)][free..] == input[free..FrameBytes(channels)];
    }

    method FlushEncodeOpus() returns (encoded: bool)
      requires Valid()
      modifies this, remaining
      ensures Valid()
      ensures State() == Flush(old(State()), PacketBytes(channels))
      ensures encoded <==> old(remainingCount) >= PacketBytes(channels)
    {
      if remainingCount >= PacketBytes(channels) {
        var temp := new byte[PACKET_MEMORY](_ => 0);
        GetNextPacket(null, 0, temp);
        remainingCount := 0;
        packets := packets + [temp[..PacketBytes(channels)]];
        assert old(remaining[..remainingCount])[..PacketBytes(channels)]
            == old(remaining[..PacketBytes(channels)]);
        return true;
      }
      return false;
    }

    /** What happens to a decoded frame: one packet, and perhaps a second one. */
    method FrameDecoded(input: array<byte>)
      requires Valid() && remainingCount < PacketBytes(channels)
      requires input != remaining && input.Length >= FrameBytes(channels)
      modifies this, remaining
      ensures Valid() && remainingCount < PacketBytes(channels)
      ensures State() == Push(old(State()), old(input[..FrameBytes(channels)]), PacketBytes(channels))
    {
      EncodeOpus(input);
      var _ := FlushEncodeOpus();
      assert |State().carry| == remainingCount;
    }
  }
}
