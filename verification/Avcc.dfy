/** The AVCC-to-Annex-B conversion on flat byte strings: what the gateway computes, capacity
    checks and failures included. */
module Avcc {
  import opened Wrappers
  import opened Bytes
  import opened Chain

  /** An access-unit delimiter NAL. */
  const AUD: seq<byte> := [0x09, 0xf0]

  /** What the codec module knows about the stream; `avcHeader` is the chain holding the last
      configuration record (empty for the null pointer). */
  datatype CodecContext = CodecContext(avcHeader: seq<seq<byte>>, h264: bool, nalBytes: nat)

  /** The length field of a NAL has one to four bytes. */
  predicate ValidCodec(codec: Option<CodecContext>) {
    codec.Some? ==> 1 <= codec.value.nalBytes <= 4
  }

  /** Ignored: NGX_OK and no output buffer. Failed: NGX_ERROR. */
  datatype Outcome = Ignored | Failed | Converted(bytes: seq<byte>)

  /** The state of the output while a message is converted. */
  datatype Writer = Writer(out: seq<byte>, audSent: bool, paramsSent: bool)

  datatype Appended = Appended(ok: bool, rest: seq<byte>, out: seq<byte>)

  function NalType(b: byte): nat {
    b % 32
  }

  predicate IsDropped(t: nat) {
    7 <= t <= 9
  }

  predicate IsPicture(t: nat) {
    t == 1 || t == 5 || t == 6
  }

  // ----- append_aud -----

  function AppendAud(out: seq<byte>, capacity: nat): (r: seq<byte>)
    requires |out| <= capacity
    ensures |r| <= capacity
  {
    if |out| + 6 > capacity then out else out + [0, 0, 0, 1, 0x09, 0xf0]
  }

  // ----- append_sps_pps -----

  /** Copies one length-prefixed parameter set from the configuration record; a failure leaves
      what has been written so far in the output. */
  function AppendNal(rest: seq<byte>, out: seq<byte>, capacity: nat): (r: Appended)
    requires |out| <= capacity
    ensures |out| <= |r.out| <= capacity
  {
    if !CanRead(rest, 2) then Appended(false, [], out)
    else
      var len := BigEndian(rest[..2]);
      var body := rest[2..];
      if capacity - |out| < 4 then Appended(false, [], out)
      else
        var prefixed := out + [0, 0, 0, 1];
        if capacity - |prefixed| < len || !CanRead(body, len) then Appended(false, [], prefixed)
        else Appended(true, body[len..], prefixed + body[..len])
  }

  function AppendNals(rest: seq<byte>, count: nat, out: seq<byte>, capacity: nat): (r: Appended)
    requires |out| <= capacity
    ensures |out| <= |r.out| <= capacity
    decreases count
  {
    if count == 0 then Appended(true, rest, out)
    else
      var one := AppendNal(rest, out, capacity);
      if !one.ok then one else AppendNals(one.rest, count - 1, one.out, capacity)
  }

  /** A count and that many parameter sets. Only the first count of a record is masked to five
      bits; the other is a signed byte counted down to zero through its wrap-around, which is the
      unsigned value of the byte. */
  function AppendList(rest: seq<byte>, masked: bool, out: seq<byte>, capacity: nat): (r: Appended)
    requires |out| <= capacity
    ensures |out| <= |r.out| <= capacity
  {
    if !CanRead(rest, 1) then Appended(false, [], out)
    else AppendNals(rest[1..], if masked then rest[0] % 32 else rest[0], out, capacity)
  }

  /** Sequence parameter sets, then picture parameter sets. */
  function AppendSpsPps(header: seq<byte>, out: seq<byte>, capacity: nat): (r: Appended)
    requires |out| <= capacity
    ensures |out| <= |r.out| <= capacity
  {
    if !CanRead(header, 10) then Appended(false, [], out)
    else
      var sps := AppendList(header[10..], true, out, capacity);
      if !sps.ok then sps else AppendList(sps.rest, false, sps.out, capacity)
  }

  // ----- avcc_to_annexb -----

  /** The insertions in front of a NAL of type t; failed insertions are logged and tolerated. */
  function Insert(header: seq<byte>, w: Writer, t: nat, capacity: nat): (r: Writer)
    requires |w.out| <= capacity
    ensures |w.out| <= |r.out| <= capacity
  {
    var out1 := if !w.audSent && IsPicture(t) then AppendAud(w.out, capacity) else w.out;
    var out2 := if t == 5 && !w.paramsSent then AppendSpsPps(header, out1, capacity).out else out1;
    Writer(out2, w.audSent || IsPicture(t), if t == 1 then false else if t == 5 then true else w.paramsSent)
  }

  /** Start code and first byte of a NAL. */
  function Prefixed(out: seq<byte>, first: byte): seq<byte> {
    out + (if out == [] then [0] else []) + [0, 0, 1, first]
  }

  /** One pass of the loop over the NALs: the function ends there, or the loop goes on. */
  datatype Step = Stop(outcome: Outcome) | Continue(rest: seq<byte>, writer: Writer)

  /** A NAL whose first byte has been read is skipped or copied. */
  function NalBody(first: byte, len: nat, body: seq<byte>, header: seq<byte>, w: Writer, capacity: nat): (r: Step)
    requires |w.out| <= capacity && len >= 1
    ensures r.Continue? ==> |r.rest| <= |body| && |w.out| <= |r.writer.out| <= capacity
    ensures r.Stop? ==> !r.outcome.Converted?
  {
    var t := NalType(first);
    if IsDropped(t) then
      if !CanRead(body, len - 1) then Stop(Failed) else Continue(body[len - 1..], w)
    else
      var w' := Insert(header, w, t, capacity);
      if capacity - |w'.out| < 5 then Stop(Ignored)
      else
        var out := Prefixed(w'.out, first);
        if capacity - |out| < len then Stop(Ignored)
        else if !CanRead(body, len - 1) then Stop(Failed)
        else Continue(body[len - 1..], w'.(out := out + body[..len - 1]))
  }

  function NalStep(rest: seq<byte>, nalBytes: nat, header: seq<byte>, w: Writer, capacity: nat): (r: Step)
    requires 1 <= nalBytes
    requires |w.out| <= capacity
    ensures r.Continue? ==> |r.rest| < |rest| && |w.out| <= |r.writer.out| <= capacity
    ensures r.Stop? ==> !r.outcome.Converted?
  {
    if !CanRead(rest, nalBytes) then Stop(Ignored)
    else
      var len := BigEndian(rest[..nalBytes]);
      var nal := rest[nalBytes..];
      if len == 0 then Continue(nal, w)
      else if !CanRead(nal, 1) then Stop(Ignored)
      else NalBody(nal[0], len, nal[1..], header, w, capacity)
  }

  /** The loop over the NALs of a message. */
  function NalLoop(rest: seq<byte>, nalBytes: nat, header: seq<byte>, w: Writer, capacity: nat): (r: Outcome)
    requires 1 <= nalBytes
    requires |w.out| <= capacity
    ensures r.Converted? ==> |r.bytes| <= capacity
    decreases |rest|
  {
    if rest == [] then Converted(w.out)
    else
      match NalStep(rest, nalBytes, header, w, capacity)
      case Stop(outcome) => outcome
      case Continue(rest', w') => NalLoop(rest', nalBytes, header, w', capacity)
  }

  /** A whole message: frame type, packet type, three bytes of composition time, NALs. */
  function Convert(codec: Option<CodecContext>, mlen: nat, message: seq<byte>, capacity: nat): (r: Outcome)
    requires ValidCodec(codec)
    ensures r.Converted? ==> |r.bytes| <= capacity
  {
    if codec.None? || codec.value.avcHeader == [] || mlen < 1 || !codec.value.h264 then Ignored
    else if !CanRead(message, 1) || !CanRead(message[1..], 1) then Failed
    else if message[1] != 1 then Ignored
    else if !CanRead(message[2..], 3) then Failed
    else NalLoop(message[5..], codec.value.nalBytes, Concat(codec.value.avcHeader),
                 Writer([], false, false), capacity)
  }
}
