/** When no buffer is returned, and whether that is NGX_OK (the message is ignored) or NGX_ERROR. */
module Refusal {
  import opened Wrappers
  import opened Bytes
  import opened ByteStream
  import opened NalLists
  import opened Avcc
  import opened Conversion

  /** Without a codec header, without H.264 or without a byte announced, whatever arrives is ignored. */
  lemma NoCodecIsIgnored(codec: Option<CodecContext>, mlen: nat, message: seq<byte>, capacity: nat)
    requires ValidCodec(codec)
    requires codec.None? || codec.value.avcHeader == [] || !codec.value.h264 || mlen == 0
    ensures Convert(codec, mlen, message, capacity) == Ignored
  {
  }

  /** A message that ends before its packet type or inside its composition time is an error; one that
      is no picture, as the codec header itself (packet type 0), is ignored. */
  lemma OtherMessages(codec: CodecContext, mlen: nat, message: seq<byte>, capacity: nat)
    requires Converts(codec) && mlen >= 1
    ensures |message| < 2 || (|message| < 5 && message[1] == 1) ==>
              Convert(Some(codec), mlen, message, capacity) == Failed
    ensures |message| >= 2 && message[1] != 1 ==> Convert(Some(codec), mlen, message, capacity) == Ignored
  {
  }

  /** The first k bytes of a NAL behind its length field. */
  function CutNal(nal: seq<byte>, nalBytes: nat, k: nat): seq<byte>
    requires k <= |nal|
  {
    ToBigEndian(|nal|, nalBytes) + nal[..k]
  }

  function CutPicture(fmt: byte, cts: seq<byte>, nals: seq<seq<byte>>, nalBytes: nat, rest: seq<byte>): seq<byte> {
    [fmt, 1] + (cts + (EncodeNals(nals, nalBytes) + rest))
  }

  lemma CutPictureLoop(codec: CodecContext, mlen: nat, fmt: byte, cts: seq<byte>, nals: seq<seq<byte>>, rest: seq<byte>,
                       more: seq<seq<byte>>, capacity: nat) returns (w: Writer)
    requires Converts(codec) && mlen >= 1 && |cts| == 3 && Fits(nals, codec.nalBytes) && rest != []
    requires HasRoom(Expected(nals + more, Params(codec)), capacity)
    ensures Roomy(w, more, Concat(codec.avcHeader), capacity)
    ensures Convert(Some(codec), mlen, CutPicture(fmt, cts, nals, codec.nalBytes, rest), capacity)
         == NalLoop(rest, codec.nalBytes, Concat(codec.avcHeader), w, capacity)
  {
    PictureLoop(codec, mlen, fmt, cts, EncodeNals(nals, codec.nalBytes) + rest, capacity);
    RoomAtStart(codec, nals + more, capacity);
    w := LoopReaches(nals, more, codec.nalBytes, rest, Concat(codec.avcHeader), Writer([], false, false), capacity);
  }

  /** A message cut inside or right behind a length field is ignored; cut inside a NAL it is an error,
      even if that NAL would not have been copied. What came before is lost in both cases. */
  lemma CutMessage(codec: CodecContext, mlen: nat, fmt: byte, cts: seq<byte>, nals: seq<seq<byte>>, nal: seq<byte>,
                   k: nat, capacity: nat)
    requires Converts(codec) && mlen >= 1 && |cts| == 3 && Fits(nals, codec.nalBytes)
    requires 0 < |nal| < Pow256(codec.nalBytes) && HasRoom(Expected(nals + [nal], Params(codec)), capacity)
    ensures 0 < k <= codec.nalBytes ==>
              Convert(Some(codec), mlen,
                      CutPicture(fmt, cts, nals, codec.nalBytes, ToBigEndian(|nal|, codec.nalBytes)[..k]), capacity)
              == Ignored
    ensures 0 < k < |nal| ==>
              Convert(Some(codec), mlen,
                      CutPicture(fmt, cts, nals, codec.nalBytes, CutNal(nal, codec.nalBytes, k)), capacity)
              == Failed
  {
    var header := Concat(codec.avcHeader);
    if 0 < k <= codec.nalBytes {
      var w := CutPictureLoop(codec, mlen, fmt, cts, nals, ToBigEndian(|nal|, codec.nalBytes)[..k], [nal], capacity);
      StepStarved(nal, codec.nalBytes, k, header, w, capacity);
    }
    if 0 < k < |nal| {
      var w := CutPictureLoop(codec, mlen, fmt, cts, nals, CutNal(nal, codec.nalBytes, k), [nal], capacity);
      if IsKept(nal) {
        RoomForFirst(w, [nal], header, capacity);
      }
      StepCut(nal, codec.nalBytes, k, header, w, capacity);
    }
  }

  /** A message with a NAL that is longer than the output buffer is ignored, whether all of that NAL
      arrives or not. */
  lemma TooLongIsIgnored(codec: CodecContext, mlen: nat, fmt: byte, cts: seq<byte>, nals: seq<seq<byte>>,
                         nal: seq<byte>, k: nat, capacity: nat)
    requires Converts(codec) && mlen >= 1 && |cts| == 3 && Fits(nals, codec.nalBytes)
    requires |nal| < Pow256(codec.nalBytes) && HasRoom(Expected(nals, Params(codec)), capacity)
    requires IsKept(nal) && 0 < k <= |nal| && |nal| > capacity
    ensures Convert(Some(codec), mlen,
                    CutPicture(fmt, cts, nals, codec.nalBytes, CutNal(nal, codec.nalBytes, k)), capacity)
         == Ignored
  {
    AppendNothing(nals);
    var w := CutPictureLoop(codec, mlen, fmt, cts, nals, CutNal(nal, codec.nalBytes, k), [], capacity);
    StepTooLong(nal, codec.nalBytes, k, Concat(codec.avcHeader), w, capacity);
  }

  lemma DeltaLayout(nal: seq<byte>, params: seq<seq<byte>>)
    requires nal == [0x41, 0x9a, 1]
    ensures Stream(Expected([nal], params), true) == [0, 0, 0, 1, 0x09, 0xf0, 0, 0, 1, 0x41, 0x9a, 1]
  {
    assert [nal][1..] == [] && nal[0] == 0x41;
    assert Kept([nal]) == [nal];
    assert TypeAt([nal], 0) == 1;
    var units := [Inserted([0x09, 0xf0]), Copied(nal)];
    assert Layout([nal], params, 1) == [];
    assert Expected([nal], params) == units;
    assert units[1..] == [Copied(nal)] && units[1..][1..] == [];
    assert Stream(units[1..], false) == [0, 0, 1] + nal;
  }

  lemma DeltaMessage()
    ensures Picture(0x27, [0, 0, 0], [[0x41, 0x9a, 1]], 4) == [0x27, 1, 0, 0, 0, 0, 0, 0, 3, 0x41, 0x9a, 1]
  {
    var nal: seq<byte> := [0x41, 0x9a, 1];
    assert ToBigEndian(3, 4) == [0, 0, 0, 3];
    EncodedWith(nal, [], 4);
    AppendNothing([nal]);
    assert EncodeNals([nal], 4) == [0, 0, 0, 3, 0x41, 0x9a, 1];
  }

  /** A delta slice alone, byte by byte: a delimiter, then the slice behind a short start code. */
  lemma DeltaSlice(codec: CodecContext, capacity: nat)
    requires Converts(codec) && codec.nalBytes == 4 && capacity >= 13
    ensures Convert(Some(codec), 12, [0x27, 1, 0, 0, 0, 0, 0, 0, 3, 0x41, 0x9a, 1], capacity)
         == Converted([0, 0, 0, 1, 0x09, 0xf0, 0, 0, 1, 0x41, 0x9a, 1])
  {
    var nal: seq<byte> := [0x41, 0x9a, 1];
    DeltaLayout(nal, Params(codec));
    DeltaMessage();
    OutcomeWithRoom(codec, 12, 0x27, [0, 0, 0], [nal], capacity);
  }
}
