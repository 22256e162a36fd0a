/** What a returned buffer holds whether the insertions fit or not: every NAL that is kept, in order,
    each behind its start code, and in front of each at most a part of its insertions, which is
    complete when it fits. */
module Truncation {
  import opened Wrappers
  import opened Bytes
  import opened ByteStream
  import opened NalLists
  import opened Avcc
  import opened ParameterSets
  import opened Conversion

  const AUD_FRAME: seq<byte> := [0, 0, 0, 1, 0x09, 0xf0]

  /** What was written in front of a NAL: the delimiter or not, and so many bytes of the parameter
      sets. */
  datatype Patch = Patch(aud: bool, length: nat)

  /** The parameter sets of a header, framed. */
  function FramedSets(header: seq<byte>): seq<byte> {
    Stream(AsInserted(HeaderSets(header)), true)
  }

  function AudBytes(p: Patch): seq<byte> {
    if p.aud then AUD_FRAME else []
  }

  /** The output behind a NAL with its patch. */
  function Written(out: seq<byte>, nal: seq<byte>, p: Patch, sets: seq<byte>): seq<byte>
    requires nal != [] && p.length <= |sets|
  {
    Prefixed((out + AudBytes(p)) + sets[..p.length], nal[0]) + nal[1..]
  }

  predicate Matching(kept: seq<seq<byte>>, patches: seq<Patch>, sets: seq<byte>) {
    AllKept(kept) && |patches| == |kept| && forall i :: 0 <= i < |patches| ==> patches[i].length <= |sets|
  }

  /** All NALs, each with its patch. */
  function Assemble(kept: seq<seq<byte>>, patches: seq<Patch>, sets: seq<byte>): seq<byte>
    requires Matching(kept, patches, sets)
  {
    if kept == [] then []
    else
      var n := |kept| - 1;
      Written(Assemble(kept[..n], patches[..n], sets), kept[n], patches[n], sets)
  }

  /** A patch stands only where insertions go, and is complete if there is room for it. */
  predicate PatchIsRight(out: seq<byte>, p: Patch, aud: bool, params: bool, sets: seq<byte>, capacity: nat) {
    && (p.aud <==> aud && |out| + 6 <= capacity)
    && p.length <= (if params then |sets| else 0)
    && (params && |out| + |AudBytes(p)| + |sets| <= capacity ==> p.length == |sets|)
  }

  ghost predicate AllRight(kept: seq<seq<byte>>, patches: seq<Patch>, sets: seq<byte>, capacity: nat)
    requires Matching(kept, patches, sets)
  {
    if kept == [] then true
    else
      var n := |kept| - 1;
      && AllRight(kept[..n], patches[..n], sets, capacity)
      && PatchIsRight(Assemble(kept[..n], patches[..n], sets), patches[n], AudGoesAt(kept, n), ParamsGoAt(kept, n),
                      sets, capacity)
  }

  // ----- one NAL -----

  lemma SetsInPlace(header: seq<byte>, out: seq<byte>)
    ensures RenderFrom(out, AsInserted(HeaderSets(header))) == out + FramedSets(header)
  {
    RenderIsStream(out, AsInserted(HeaderSets(header)));
  }

  lemma PartIsFront(out: seq<byte>, part: seq<byte>, more: seq<byte>)
    requires IsPart(out, part, out + more)
    ensures |part| - |out| <= |more| && part == out + more[..|part| - |out|]
  {
    assert part == (out + more)[..|part|];
  }

  lemma InsertWritesPatch(header: seq<byte>, w: Writer, t: nat, capacity: nat) returns (p: Patch)
    requires |w.out| <= capacity
    ensures p.length <= |FramedSets(header)|
    ensures PatchIsRight(w.out, p, !w.audSent && IsPicture(t), !w.paramsSent && t == 5, FramedSets(header), capacity)
    ensures Insert(header, w, t, capacity).out == (w.out + AudBytes(p)) + FramedSets(header)[..p.length]
  {
    var sets := FramedSets(header);
    p := Patch(!w.audSent && IsPicture(t) && |w.out| + 6 <= capacity, 0);
    var out := w.out + AudBytes(p);
    AppendNothing(w.out);
    AppendNothing(out);
    if t == 5 && !w.paramsSent {
      var r := AppendSpsPps(header, out, capacity);
      AppendSpsPpsMeaning(header, out, capacity);
      AppendSpsPpsWritesPart(header, out, capacity);
      SetsInPlace(header, out);
      p := p.(length := |r.out| - |out|);
      PartIsFront(out, r.out, sets);
    }
  }

  /** The length field, the first byte and the others. */
  lemma FrontOfStep(nal: seq<byte>, nalBytes: nat, behind: seq<byte>)
    requires |nal| < Pow256(nalBytes)
    ensures var rest := ToBigEndian(|nal|, nalBytes) + (nal + behind);
            && BigEndian(rest[..nalBytes]) == |nal| && rest[nalBytes..] == nal + behind
            && (nal != [] ==> (nal + behind)[0] == nal[0] && (nal + behind)[1..] == nal[1..] + behind)
  {
    BigEndianRoundTrip(|nal|, nalBytes);
    DropFront(ToBigEndian(|nal|, nalBytes), nal + behind);
    if nal != [] {
      assert (nal + behind)[1..] == nal[1..] + behind;
    }
  }

  /** The writer behind a NAL that is skipped, or copied with its patch. */
  predicate PatchedBy(w: Writer, w': Writer, nal: seq<byte>, p: Patch, sets: seq<byte>, capacity: nat) {
    if !IsKept(nal) then w' == w
    else
      var t := NalType(nal[0]);
      && p.length <= |sets|
      && PatchIsRight(w.out, p, !w.audSent && IsPicture(t), !w.paramsSent && t == 5, sets, capacity)
      && w' == Writer(Written(w.out, nal, p, sets), w.audSent || IsPicture(t),
                      if t == 1 then false else t == 5 || w.paramsSent)
  }

  lemma CopiedBody(first: byte, rest: seq<byte>, behind: seq<byte>, header: seq<byte>, w: Writer, capacity: nat)
    requires |w.out| <= capacity && !IsDropped(NalType(first))
    requires NalBody(first, |rest| + 1, rest + behind, header, w, capacity).Continue?
    ensures var w' := Insert(header, w, NalType(first), capacity);
            NalBody(first, |rest| + 1, rest + behind, header, w, capacity).writer ==
            w'.(out := Prefixed(w'.out, first) + rest)
  {
    DropFront(rest, behind);
  }

  lemma InsertSetsFlags(header: seq<byte>, w: Writer, t: nat, capacity: nat)
    requires |w.out| <= capacity
    ensures var w' := Insert(header, w, t, capacity);
            && w'.audSent == (w.audSent || IsPicture(t))
            && w'.paramsSent == if t == 1 then false else t == 5 || w.paramsSent
  {
  }

  lemma BodyWritesPatch(nal: seq<byte>, behind: seq<byte>, header: seq<byte>, w: Writer, capacity: nat)
    returns (p: Patch)
    requires nal != [] && |w.out| <= capacity
    requires NalBody(nal[0], |nal|, nal[1..] + behind, header, w, capacity).Continue?
    ensures var step := NalBody(nal[0], |nal|, nal[1..] + behind, header, w, capacity);
            PatchedBy(w, step.writer, nal, p, FramedSets(header), capacity)
  {
    p := Patch(false, 0);
    if IsKept(nal) {
      CopiedBody(nal[0], nal[1..], behind, header, w, capacity);
      InsertSetsFlags(header, w, NalType(nal[0]), capacity);
      p := InsertWritesPatch(header, w, NalType(nal[0]), capacity);
    }
  }

  /** One pass of the loop that went on. */
  lemma StepWritesPatch(rest: seq<byte>, nalBytes: nat, header: seq<byte>, w: Writer, capacity: nat)
    returns (nal: seq<byte>, p: Patch)
    requires 1 <= nalBytes && |w.out| <= capacity && NalStep(rest, nalBytes, header, w, capacity).Continue?
    ensures |nal| < Pow256(nalBytes)
    ensures var step := NalStep(rest, nalBytes, header, w, capacity);
            && rest == ToBigEndian(|nal|, nalBytes) + (nal + step.rest) && (|nal| == 1 ==> step.rest != [])
            && PatchedBy(w, step.writer, nal, p, FramedSets(header), capacity)
  {
    nal := StepIsFramed(rest, nalBytes, header, w, capacity);
    p := Patch(false, 0);
    var behind := NalStep(rest, nalBytes, header, w, capacity).rest;
    FrontOfStep(nal, nalBytes, behind);
    if nal != [] {
      p := BodyWritesPatch(nal, behind, header, w, capacity);
    }
  }

  // ----- the flags -----

  /** The writer stands behind the NALs of `kept`. */
  ghost predicate Behind(w: Writer, kept: seq<seq<byte>>, patches: seq<Patch>, sets: seq<byte>)
    requires Matching(kept, patches, sets)
  {
    && w.out == Assemble(kept, patches, sets)
    && (w.audSent <==> PictureBefore(kept, |kept|))
    && (w.paramsSent <==> ParamsStillValid(kept, |kept|))
  }

  lemma FlagsOfFront(kept: seq<seq<byte>>)
    requires kept != [] && AllKept(kept)
    ensures var n := |kept| - 1;
            && AllKept(kept[..n])
            && (PictureBefore(kept[..n], n) <==> PictureBefore(kept, n))
            && (ParamsStillValid(kept[..n], n) <==> ParamsStillValid(kept, n))
  {
    var n := |kept| - 1;
    assert forall j: nat :: j < n ==> kept[..n][j] == kept[j];
    assert forall j: nat :: j < n ==> TypeAt(kept[..n], j) == TypeAt(kept, j);
    if ParamsStillValid(kept[..n], n) {
      var j: nat :| j < n && TypeAt(kept[..n], j) == 5 && forall m: nat :: j < m < n ==> TypeAt(kept[..n], m) != 1;
      assert forall m: nat :: j < m < n ==> TypeAt(kept, m) != 1;
    }
    if ParamsStillValid(kept, n) {
      var j: nat :| j < n && TypeAt(kept, j) == 5 && forall m: nat :: j < m < n ==> TypeAt(kept, m) != 1;
      assert forall m: nat :: j < m < n ==> TypeAt(kept[..n], m) != 1;
    }
  }

  lemma FlagsSayWhere(kept: seq<seq<byte>>, i: nat)
    requires AllKept(kept) && i < |kept|
    ensures AudGoesAt(kept, i) <==> !PictureBefore(kept, i) && IsPicture(TypeAt(kept, i))
    ensures ParamsGoAt(kept, i) <==> !ParamsStillValid(kept, i) && TypeAt(kept, i) == 5
  {
  }

  lemma OneMoreFlags(w: Writer, kept: seq<seq<byte>>, nal: seq<byte>)
    requires AllKept(kept) && IsKept(nal)
    requires w.audSent <==> PictureBefore(kept, |kept|)
    requires w.paramsSent <==> ParamsStillValid(kept, |kept|)
    ensures var all, n, t := kept + [nal], |kept|, NalType(nal[0]);
            && AllKept(all)
            && (AudGoesAt(all, n) <==> !w.audSent && IsPicture(t))
            && (ParamsGoAt(all, n) <==> !w.paramsSent && t == 5)
            && (PictureBefore(all, n + 1) <==> w.audSent || IsPicture(t))
            && (ParamsStillValid(all, n + 1) <==> if t == 1 then false else t == 5 || w.paramsSent)
  {
    var all, n := kept + [nal], |kept|;
    assert all[..n] == kept;
    FlagsOfFront(all);
    FlagsAdvance(all, n);
    FlagsSayWhere(all, n);
  }

  lemma OneMoreWritten(kept: seq<seq<byte>>, patches: seq<Patch>, nal: seq<byte>, p: Patch, sets: seq<byte>)
    requires Matching(kept, patches, sets) && IsKept(nal) && p.length <= |sets|
    ensures Matching(kept + [nal], patches + [p], sets)
    ensures Assemble(kept + [nal], patches + [p], sets) == Written(Assemble(kept, patches, sets), nal, p, sets)
  {
    assert (kept + [nal])[..|kept|] == kept && (patches + [p])[..|kept|] == patches;
  }

  lemma OneMoreRight(kept: seq<seq<byte>>, patches: seq<Patch>, nal: seq<byte>, p: Patch, sets: seq<byte>,
                     capacity: nat)
    requires Matching(kept, patches, sets) && Matching(kept + [nal], patches + [p], sets)
    requires AllRight(kept, patches, sets, capacity)
    requires var all, n := kept + [nal], |kept|;
             PatchIsRight(Assemble(kept, patches, sets), p, AudGoesAt(all, n), ParamsGoAt(all, n), sets, capacity)
    ensures AllRight(kept + [nal], patches + [p], sets, capacity)
  {
    assert (kept + [nal])[..|kept|] == kept && (patches + [p])[..|kept|] == patches;
  }

  /** One more NAL behind its patch. */
  lemma OneMoreNal(w: Writer, kept: seq<seq<byte>>, patches: seq<Patch>, nal: seq<byte>, p: Patch, sets: seq<byte>,
                   w': Writer, capacity: nat)
    requires Matching(kept, patches, sets) && AllRight(kept, patches, sets, capacity) && Behind(w, kept, patches, sets)
    requires IsKept(nal) && PatchedBy(w, w', nal, p, sets, capacity)
    ensures Matching(kept + [nal], patches + [p], sets)
    ensures AllRight(kept + [nal], patches + [p], sets, capacity) && Behind(w', kept + [nal], patches + [p], sets)
  {
    OneMoreFlags(w, kept, nal);
    OneMoreWritten(kept, patches, nal, p, sets);
    OneMoreRight(kept, patches, nal, p, sets, capacity);
  }

  // ----- the loop -----

  lemma KeptWith(nal: seq<byte>, more: seq<seq<byte>>)
    ensures Kept([nal] + more) == (if IsKept(nal) then [nal] else []) + Kept(more)
  {
    assert ([nal] + more)[1..] == more;
  }

  lemma {:induction false} LoopAssembles(rest: seq<byte>, nalBytes: nat, header: seq<byte>, w: Writer, capacity: nat,
                                         kept: seq<seq<byte>>, patches: seq<Patch>)
    returns (nals: seq<seq<byte>>, all: seq<Patch>)
    requires 1 <= nalBytes && |w.out| <= capacity && NalLoop(rest, nalBytes, header, w, capacity).Converted?
    requires Matching(kept, patches, FramedSets(header)) && AllRight(kept, patches, FramedSets(header), capacity)
    requires Behind(w, kept, patches, FramedSets(header))
    ensures Fits(nals, nalBytes) && LastReadable(nals) && rest == EncodeNals(nals, nalBytes)
    ensures Matching(kept + Kept(nals), all, FramedSets(header))
    ensures AllRight(kept + Kept(nals), all, FramedSets(header), capacity)
    ensures NalLoop(rest, nalBytes, header, w, capacity).bytes
         == Assemble(kept + Kept(nals), all, FramedSets(header))
    decreases |rest|
  {
    if rest == [] {
      nals, all := [], patches;
      AppendNothing(kept);
    } else {
      var step := NalStep(rest, nalBytes, header, w, capacity);
      var nal, p := StepWritesPatch(rest, nalBytes, header, w, capacity);
      var kept', patches' := kept, patches;
      if IsKept(nal) {
        OneMoreNal(w, kept, patches, nal, p, FramedSets(header), step.writer, capacity);
        kept', patches' := kept + [nal], patches + [p];
      }
      var more;
      more, all := LoopAssembles(step.rest, nalBytes, header, step.writer, capacity, kept', patches');
      nals := [nal] + more;
      FitsWith(nal, more, nalBytes);
      LastStillReadable(nal, more);
      EncodedWith(nal, more, nalBytes);
      KeptWith(nal, more);
      Assoc(kept, [nal], Kept(more));
      EmptyFront(Kept(more));
    }
  }

  // ----- a whole message -----

  /** Only pictures under a codec header are converted, and what they are converted to is what the
      loop returns. */
  lemma ConvertedByLoop(codec: Option<CodecContext>, mlen: nat, message: seq<byte>, capacity: nat)
    requires ValidCodec(codec) && Convert(codec, mlen, message, capacity).Converted?
    ensures codec.Some? && Converts(codec.value) && mlen >= 1 && |message| >= 5 && message[1] == 1
    ensures Convert(codec, mlen, message, capacity)
         == NalLoop(message[5..], codec.value.nalBytes, Concat(codec.value.avcHeader), Writer([], false, false),
                    capacity)
  {
  }

  /** Whatever the message, the codec header and the size of the buffer, a returned buffer means that
      the whole message has been read as NALs, and holds all of them that are kept, each behind its
      start code and a part of its insertions, complete where it fits. With room for everything it
      is the stream of the units. */
  lemma ConvertedMeansWholeMessage(codec: Option<CodecContext>, mlen: nat, message: seq<byte>, capacity: nat)
    returns (nals: seq<seq<byte>>, patches: seq<Patch>)
    requires ValidCodec(codec) && Convert(codec, mlen, message, capacity).Converted?
    ensures codec.Some? && Converts(codec.value) && mlen >= 1 && |message| >= 5 && message[1] == 1
    ensures Fits(nals, codec.value.nalBytes) && LastReadable(nals)
    ensures message[5..] == EncodeNals(nals, codec.value.nalBytes)
    ensures var sets := FramedSets(Concat(codec.value.avcHeader));
            && Matching(Kept(nals), patches, sets) && AllRight(Kept(nals), patches, sets, capacity)
            && Convert(codec, mlen, message, capacity) == Converted(Assemble(Kept(nals), patches, sets))
    ensures var units := Expected(nals, Params(codec.value));
            HasRoom(units, capacity) ==> Convert(codec, mlen, message, capacity) == Converted(Stream(units, true))
  {
    ConvertedByLoop(codec, mlen, message, capacity);
    var c := codec.value;
    var header := Concat(c.avcHeader);
    nals, patches := LoopAssembles(message[5..], c.nalBytes, header, Writer([], false, false), capacity, [], []);
    EmptyFront(Kept(nals));
    assert message == Picture(message[0], message[2..5], nals, c.nalBytes);
    ConversionIsComplete(c, mlen, message[0], message[2..5], nals, capacity);
  }
}
