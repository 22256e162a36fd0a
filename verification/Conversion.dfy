/** What the conversion means: which units a message turns into, when all of them come out, and
    when a receiver of the byte stream gets them back. */
module Conversion {
  import opened Wrappers
  import opened Bytes
  import opened Chain
  import opened ByteStream
  import opened NalLists
  import opened Avcc
  import opened ParameterSets

  // ----- the units of a message -----

  /** What goes in front of a NAL of type t. */
  function Before(params: seq<seq<byte>>, audSent: bool, paramsSent: bool, t: nat): seq<Unit> {
    (if !audSent && IsPicture(t) then [Inserted(AUD)] else [])
    + (if t == 5 && !paramsSent then AsInserted(params) else [])
  }

  /** Empty NALs, parameter sets and delimiters (types 7, 8 and 9 in the low five bits of the first
      byte) are not copied. */
  predicate IsKept(nal: seq<byte>) {
    nal != [] && nal[0] % 32 != 7 && nal[0] % 32 != 8 && nal[0] % 32 != 9
  }

  /** The units of a message, read off its NALs from the front. */
  function Units(nals: seq<seq<byte>>, params: seq<seq<byte>>, audSent: bool, paramsSent: bool): seq<Unit>
    decreases |nals|
  {
    if nals == [] then []
    else if !IsKept(nals[0]) then Units(nals[1..], params, audSent, paramsSent)
    else
      var t := NalType(nals[0][0]);
      Before(params, audSent, paramsSent, t) + ([Copied(nals[0])]
      + Units(nals[1..], params, audSent || IsPicture(t), if t == 1 then false else t == 5 || paramsSent))
  }

  // ----- the loop over the NALs -----

  /** A one-byte NAL that ends the message makes the conversion fail: behind it nothing can be
      read any more, not even nothing. */
  predicate LastReadable(nals: seq<seq<byte>>) {
    nals == [] || |nals[|nals| - 1]| != 1
  }

  lemma RenderAud(out: seq<byte>)
    ensures RenderFrom(out, [Inserted(AUD)]) == out + [0, 0, 0, 1, 0x09, 0xf0]
  {
    assert [Inserted(AUD)][1..] == [];
    assert out + Frame(out, Inserted(AUD)) == out + [0, 0, 0, 1, 0x09, 0xf0];
  }

  lemma InsertMeaning(header: seq<byte>, w: Writer, t: nat, capacity: nat)
    requires |w.out| <= capacity
    requires |RenderFrom(w.out, Before(HeaderSets(header), w.audSent, w.paramsSent, t))| <= capacity
    ensures Insert(header, w, t, capacity)
         == Writer(RenderFrom(w.out, Before(HeaderSets(header), w.audSent, w.paramsSent, t)),
                   w.audSent || IsPicture(t), if t == 1 then false else t == 5 || w.paramsSent)
  {
    var aud := if !w.audSent && IsPicture(t) then [Inserted(AUD)] else [];
    var params := if t == 5 && !w.paramsSent then AsInserted(HeaderSets(header)) else [];
    var out1 := RenderFrom(w.out, aud);
    RenderAud(w.out);
    RenderAppend(w.out, aud, params);
    RenderGrows(out1, params);
    AppendSpsPpsMeaning(header, out1, capacity);
  }

  /** A NAL behind its length field, and the rest of the message. */
  function Prefix(nal: seq<byte>, nalBytes: nat, rest: seq<byte>): seq<byte> {
    ToBigEndian(|nal|, nalBytes) + (nal + rest)
  }

  /** Nothing stands in the way of reading it: a single byte must not come last. */
  predicate Readable(nal: seq<byte>, nalBytes: nat, rest: seq<byte>) {
    1 <= nalBytes && |nal| < Pow256(nalBytes) && (|nal| == 1 ==> rest != [])
  }

  /** What one pass of the loop reads. */
  lemma StepReads(nal: seq<byte>, nalBytes: nat, rest: seq<byte>)
    requires 1 <= nalBytes && |nal| < Pow256(nalBytes)
    ensures var s := Prefix(nal, nalBytes, rest);
            && CanRead(s, nalBytes)
            && BigEndian(s[..nalBytes]) == |nal|
            && s[nalBytes..] == nal + rest
            && (nal != [] ==>
                  && (nal + rest)[0] == nal[0] && (nal + rest)[1..] == nal[1..] + rest
                  && (nal[1..] + rest)[..|nal| - 1] == nal[1..]
                  && (nal[1..] + rest)[|nal| - 1..] == rest)
  {
    BigEndianRoundTrip(|nal|, nalBytes);
    DropFront(ToBigEndian(|nal|, nalBytes), nal + rest);
    if nal != [] {
      assert (nal + rest)[1..] == nal[1..] + rest;
      DropFront(nal[1..], rest);
    }
  }

  lemma StepSkips(nal: seq<byte>, nalBytes: nat, rest: seq<byte>, header: seq<byte>, w: Writer, capacity: nat)
    requires Readable(nal, nalBytes, rest) && |w.out| <= capacity && !IsKept(nal)
    ensures NalStep(Prefix(nal, nalBytes, rest), nalBytes, header, w, capacity) == Continue(rest, w)
  {
    StepReads(nal, nalBytes, rest);
    EmptyFront(rest);
  }

  /** The state of the output behind a copied NAL. */
  function After(w: Writer, params: seq<seq<byte>>, nal: seq<byte>): Writer
    requires nal != []
  {
    var t := NalType(nal[0]);
    Writer(RenderFrom(w.out, Before(params, w.audSent, w.paramsSent, t) + [Copied(nal)]),
           w.audSent || IsPicture(t), if t == 1 then false else t == 5 || w.paramsSent)
  }

  lemma RenderOne(out: seq<byte>, nal: seq<byte>)
    requires nal != []
    ensures RenderFrom(out, [Copied(nal)]) == Prefixed(out, nal[0]) + nal[1..]
  {
    var u := Copied(nal);
    assert [u][1..] == [];
    assert out + Frame(out, u) == Prefixed(out, nal[0]) + nal[1..];
  }

  lemma InsertAndPrefix(nal: seq<byte>, header: seq<byte>, w: Writer, capacity: nat)
    requires |w.out| <= capacity && nal != []
    requires |After(w, HeaderSets(header), nal).out| < capacity
    ensures var w' := Insert(header, w, NalType(nal[0]), capacity);
            && |Prefixed(w'.out, nal[0])| + |nal| <= capacity
            && After(w, HeaderSets(header), nal) == w'.(out := Prefixed(w'.out, nal[0]) + nal[1..])
  {
    var t := NalType(nal[0]);
    var before := Before(HeaderSets(header), w.audSent, w.paramsSent, t);
    RenderAppend(w.out, before, [Copied(nal)]);
    RenderOne(RenderFrom(w.out, before), nal);
    InsertMeaning(header, w, t, capacity);
  }

  lemma StepCopies(nal: seq<byte>, nalBytes: nat, rest: seq<byte>, header: seq<byte>, w: Writer, capacity: nat)
    requires Readable(nal, nalBytes, rest) && |w.out| <= capacity && IsKept(nal)
    requires |After(w, HeaderSets(header), nal).out| < capacity
    ensures NalStep(Prefix(nal, nalBytes, rest), nalBytes, header, w, capacity)
         == Continue(rest, After(w, HeaderSets(header), nal))
  {
    StepReads(nal, nalBytes, rest);
    InsertAndPrefix(nal, header, w, capacity);
  }

  lemma RenderUnitsFront(nals: seq<seq<byte>>, params: seq<seq<byte>>, w: Writer)
    requires nals != [] && IsKept(nals[0])
    ensures var w' := After(w, params, nals[0]);
            RenderFrom(w.out, Units(nals, params, w.audSent, w.paramsSent)) ==
            RenderFrom(w'.out, Units(nals[1..], params, w'.audSent, w'.paramsSent))
    ensures Units(nals, params, w.audSent, w.paramsSent) != []
  {
    var front := Before(params, w.audSent, w.paramsSent, NalType(nals[0][0]));
    var w' := After(w, params, nals[0]);
    var rest := Units(nals[1..], params, w'.audSent, w'.paramsSent);
    Assoc(front, [Copied(nals[0])], rest);
    RenderAppend(w.out, front + [Copied(nals[0])], rest);
  }

  lemma CutBody(nal: seq<byte>, k: nat, header: seq<byte>, w: Writer, capacity: nat)
    requires |w.out| <= capacity && (0 < k < |nal| || k == |nal| == 1)
    requires IsKept(nal) ==> |After(w, HeaderSets(header), nal).out| < capacity
    ensures NalBody(nal[0], |nal|, nal[1..k], header, w, capacity) == Stop(Failed)
  {
    if IsKept(nal) {
      InsertAndPrefix(nal, header, w, capacity);
    }
  }

  /** A NAL of which only some bytes have arrived; a single byte at the end is one of those. */
  lemma StepCut(nal: seq<byte>, nalBytes: nat, k: nat, header: seq<byte>, w: Writer, capacity: nat)
    requires 1 <= nalBytes && |nal| < Pow256(nalBytes) && |w.out| <= capacity
    requires 0 < k < |nal| || k == |nal| == 1
    requires IsKept(nal) ==> |After(w, HeaderSets(header), nal).out| < capacity
    ensures NalStep(ToBigEndian(|nal|, nalBytes) + nal[..k], nalBytes, header, w, capacity) == Stop(Failed)
  {
    BigEndianRoundTrip(|nal|, nalBytes);
    DropFront(ToBigEndian(|nal|, nalBytes), nal[..k]);
    assert nal[..k][0] == nal[0] && nal[..k][1..] == nal[1..k];
    CutBody(nal, k, header, w, capacity);
  }

  /** Nothing behind the length field, or not even all of that. */
  lemma StepStarved(nal: seq<byte>, nalBytes: nat, k: nat, header: seq<byte>, w: Writer, capacity: nat)
    requires 1 <= nalBytes && 0 < |nal| < Pow256(nalBytes) && |w.out| <= capacity && 0 < k <= nalBytes
    ensures NalStep(ToBigEndian(|nal|, nalBytes)[..k], nalBytes, header, w, capacity) == Stop(Ignored)
  {
    BigEndianRoundTrip(|nal|, nalBytes);
    assert k == nalBytes ==> ToBigEndian(|nal|, nalBytes)[..k] == ToBigEndian(|nal|, nalBytes);
  }

  /** A NAL that is longer than the whole buffer, however much of it has arrived. */
  lemma StepTooLong(nal: seq<byte>, nalBytes: nat, k: nat, header: seq<byte>, w: Writer, capacity: nat)
    requires 1 <= nalBytes && |nal| < Pow256(nalBytes) && |w.out| <= capacity
    requires IsKept(nal) && 0 < k <= |nal| && |nal| > capacity
    ensures NalStep(ToBigEndian(|nal|, nalBytes) + nal[..k], nalBytes, header, w, capacity) == Stop(Ignored)
  {
    BigEndianRoundTrip(|nal|, nalBytes);
    DropFront(ToBigEndian(|nal|, nalBytes), nal[..k]);
  }

  /** What the output becomes, and whether there is a byte more than it needs. */
  function Rendered(w: Writer, nals: seq<seq<byte>>, header: seq<byte>): seq<byte> {
    RenderFrom(w.out, Units(nals, HeaderSets(header), w.audSent, w.paramsSent))
  }

  predicate Roomy(w: Writer, nals: seq<seq<byte>>, header: seq<byte>, capacity: nat) {
    && |w.out| <= capacity
    && (Units(nals, HeaderSets(header), w.audSent, w.paramsSent) == [] || |Rendered(w, nals, header)| < capacity)
  }

  lemma RoomForFirst(w: Writer, nals: seq<seq<byte>>, header: seq<byte>, capacity: nat)
    requires nals != [] && IsKept(nals[0]) && Roomy(w, nals, header, capacity)
    ensures var w' := After(w, HeaderSets(header), nals[0]);
            && |w'.out| < capacity && Roomy(w', nals[1..], header, capacity)
            && Rendered(w', nals[1..], header) == Rendered(w, nals, header)
  {
    var params := HeaderSets(header);
    var w' := After(w, params, nals[0]);
    RenderUnitsFront(nals, params, w);
    RenderGrows(w'.out, Units(nals[1..], params, w'.audSent, w'.paramsSent));
  }

  /** One pass of the loop: less input, the same output in the end. */
  lemma LoopPass(nals: seq<seq<byte>>, nalBytes: nat, rest: seq<byte>, header: seq<byte>, w: Writer, capacity: nat)
    returns (w': Writer)
    requires nals != [] && Readable(nals[0], nalBytes, rest) && Roomy(w, nals, header, capacity)
    ensures Roomy(w', nals[1..], header, capacity) && Rendered(w', nals[1..], header) == Rendered(w, nals, header)
    ensures NalLoop(Prefix(nals[0], nalBytes, rest), nalBytes, header, w, capacity)
         == NalLoop(rest, nalBytes, header, w', capacity)
  {
    if IsKept(nals[0]) {
      w' := After(w, HeaderSets(header), nals[0]);
      RoomForFirst(w, nals, header, capacity);
      StepCopies(nals[0], nalBytes, rest, header, w, capacity);
    } else {
      w' := w;
      StepSkips(nals[0], nalBytes, rest, header, w, capacity);
    }
  }

  /** The loop gets behind complete NALs, if they and some `more` fit. */
  lemma {:induction false} LoopReaches(nals: seq<seq<byte>>, more: seq<seq<byte>>, nalBytes: nat, rest: seq<byte>,
                                       header: seq<byte>, w: Writer, capacity: nat) returns (w': Writer)
    requires 1 <= nalBytes && Fits(nals, nalBytes) && rest != [] && Roomy(w, nals + more, header, capacity)
    ensures Roomy(w', more, header, capacity) && Rendered(w', more, header) == Rendered(w, nals + more, header)
    ensures NalLoop(EncodeNals(nals, nalBytes) + rest, nalBytes, header, w, capacity)
         == NalLoop(rest, nalBytes, header, w', capacity)
    decreases |nals|
  {
    if nals == [] {
      w' := w;
      EmptyFront(more);
      EmptyFront(rest);
    } else {
      var behind := EncodeNals(nals[1..], nalBytes) + rest;
      assert nals == [nals[0]] + nals[1..] && (nals + more)[1..] == nals[1..] + more;
      EncodedBefore(nals[0], nals[1..], nalBytes, rest);
      w' := LoopPass(nals + more, nalBytes, behind, header, w, capacity);
      w' := LoopReaches(nals[1..], more, nalBytes, rest, header, w', capacity);
    }
  }

  lemma LoopEnds(nal: seq<byte>, nalBytes: nat, header: seq<byte>, w: Writer, capacity: nat)
    requires 1 <= nalBytes && |nal| < Pow256(nalBytes) && Roomy(w, [nal], header, capacity)
    ensures NalLoop(EncodeNals([nal], nalBytes), nalBytes, header, w, capacity)
         == if |nal| != 1 then Converted(Rendered(w, [nal], header)) else Failed
  {
    EncodedWith(nal, [], nalBytes);
    if |nal| != 1 {
      var w' := LoopPass([nal], nalBytes, [], header, w, capacity);
    } else {
      if IsKept(nal) {
        RoomForFirst(w, [nal], header, capacity);
      }
      AppendNothing(nal);
      assert nal[..1] == nal;
      StepCut(nal, nalBytes, 1, header, w, capacity);
    }
  }

  /** If the units fit, the loop writes exactly them, or fails on a single byte at the end. */
  lemma LoopWritesUnits(nals: seq<seq<byte>>, nalBytes: nat, header: seq<byte>, w: Writer, capacity: nat)
    requires 1 <= nalBytes && Fits(nals, nalBytes) && Roomy(w, nals, header, capacity)
    ensures NalLoop(EncodeNals(nals, nalBytes), nalBytes, header, w, capacity)
         == if LastReadable(nals) then Converted(Rendered(w, nals, header)) else Failed
  {
    if nals != [] {
      var front, last := nals[..|nals| - 1], nals[|nals| - 1];
      assert nals == front + [last];
      EncodedAppend(front, [last], nalBytes);
      EncodedWith(last, [], nalBytes);
      var w' := LoopReaches(front, [last], nalBytes, EncodeNals([last], nalBytes), header, w, capacity);
      LoopEnds(last, nalBytes, header, w', capacity);
    }
  }

  /** A returned buffer is never full, unless nothing was written. */
  lemma {:induction false} ConvertedHasRoom(rest: seq<byte>, nalBytes: nat, header: seq<byte>, w: Writer, capacity: nat)
    requires 1 <= nalBytes && |w.out| <= capacity
    requires NalLoop(rest, nalBytes, header, w, capacity).Converted?
    ensures var out := NalLoop(rest, nalBytes, header, w, capacity).bytes;
            out == w.out || |out| < capacity
    decreases |rest|
  {
    if rest == [] {
    } else {
      var step := NalStep(rest, nalBytes, header, w, capacity);
      ConvertedHasRoom(step.rest, nalBytes, header, step.writer, capacity);
    }
  }

  /** One pass of the loop that went well read one NAL, behind which something was left if the NAL
      was a single byte. */
  lemma StepIsFramed(rest: seq<byte>, nalBytes: nat, header: seq<byte>, w: Writer, capacity: nat)
    returns (nal: seq<byte>)
    requires 1 <= nalBytes && |w.out| <= capacity && NalStep(rest, nalBytes, header, w, capacity).Continue?
    ensures |nal| < Pow256(nalBytes)
    ensures var behind := NalStep(rest, nalBytes, header, w, capacity).rest;
            rest == ToBigEndian(|nal|, nalBytes) + (nal + behind) && (|nal| == 1 ==> behind != [])
  {
    var field, behind := rest[..nalBytes], rest[nalBytes..];
    ToBigEndianRoundTrip(field);
    nal := behind[..BigEndian(field)];
    SplitAt(rest, nalBytes);
    SplitAt(behind, |nal|);
    if nal != [] {
      DropTwice(behind, 1, |nal| - 1);
    }
  }

  lemma LastStillReadable(nal: seq<byte>, more: seq<seq<byte>>)
    requires LastReadable(more) && (|nal| == 1 ==> more != [])
    ensures LastReadable([nal] + more)
  {
  }

  /** A returned buffer means that the whole message was consumed: it is a list of
      length-prefixed NALs, the last of them not one byte long. */
  lemma {:induction false} ConvertedIsFramed(rest: seq<byte>, nalBytes: nat, header: seq<byte>, w: Writer,
                                             capacity: nat) returns (nals: seq<seq<byte>>)
    requires 1 <= nalBytes && |w.out| <= capacity
    requires NalLoop(rest, nalBytes, header, w, capacity).Converted?
    ensures Fits(nals, nalBytes) && LastReadable(nals) && rest == EncodeNals(nals, nalBytes)
    decreases |rest|
  {
    if rest == [] {
      nals := [];
    } else {
      var step := NalStep(rest, nalBytes, header, w, capacity);
      var nal := StepIsFramed(rest, nalBytes, header, w, capacity);
      var more := ConvertedIsFramed(step.rest, nalBytes, header, step.writer, capacity);
      nals := [nal] + more;
      LastStillReadable(nal, more);
      EncodedWith(nal, more, nalBytes);
    }
  }

  // ----- where the insertions go -----

  /** A list of NALs all of which are copied. */
  predicate AllKept(kept: seq<seq<byte>>) {
    forall i :: 0 <= i < |kept| ==> IsKept(kept[i])
  }

  function Kept(nals: seq<seq<byte>>): (kept: seq<seq<byte>>)
    ensures AllKept(kept)
    ensures forall nal :: nal in kept <==> nal in nals && IsKept(nal)
  {
    if nals == [] then []
    else if IsKept(nals[0]) then [nals[0]] + Kept(nals[1..])
    else Kept(nals[1..])
  }

  /** The low five bits of the first byte. */
  function TypeAt(kept: seq<seq<byte>>, i: nat): nat
    requires AllKept(kept) && i < |kept|
  {
    kept[i][0] % 32
  }

  /** Slices and SEI, written out independently of the code. */
  predicate IsSliceOrSei(t: nat) {
    t == 1 || t == 5 || t == 6
  }

  /** The delimiter goes in front of the first slice or SEI. */
  ghost predicate AudGoesAt(kept: seq<seq<byte>>, i: nat)
    requires AllKept(kept) && i < |kept|
  {
    IsSliceOrSei(TypeAt(kept, i)) && forall j: nat :: j < i ==> !IsSliceOrSei(TypeAt(kept, j))
  }

  /** Parameter sets go in front of an IDR slice unless an earlier one stands in the same run,
      with no non-IDR slice in between. */
  ghost predicate ParamsGoAt(kept: seq<seq<byte>>, i: nat)
    requires AllKept(kept) && i < |kept|
  {
    && TypeAt(kept, i) == 5
    && forall j: nat :: j < i && TypeAt(kept, j) == 5 ==> exists m: nat :: j < m < i && TypeAt(kept, m) == 1
  }

  /** The output, position by position. */
  ghost function Layout(kept: seq<seq<byte>>, params: seq<seq<byte>>, i: nat): seq<Unit>
    requires AllKept(kept) && i <= |kept|
    decreases |kept| - i
  {
    if i == |kept| then []
    else
      ((if AudGoesAt(kept, i) then [Inserted([0x09, 0xf0])] else [])
       + (if ParamsGoAt(kept, i) then AsInserted(params) else []))
      + ([Copied(kept[i])] + Layout(kept, params, i + 1))
  }

  lemma {:induction false} SkippedNalsDoNotMatter(nals: seq<seq<byte>>, params: seq<seq<byte>>, audSent: bool,
                                                  paramsSent: bool)
    ensures Units(nals, params, audSent, paramsSent) == Units(Kept(nals), params, audSent, paramsSent)
    decreases |nals|
  {
    if nals == [] {
    } else {
      if IsKept(nals[0]) {
        var t := NalType(nals[0][0]);
        assert Kept(nals)[0] == nals[0] && Kept(nals)[1..] == Kept(nals[1..]);
        SkippedNalsDoNotMatter(nals[1..], params, audSent || IsPicture(t),
                               if t == 1 then false else t == 5 || paramsSent);
      } else {
        SkippedNalsDoNotMatter(nals[1..], params, audSent, paramsSent);
      }
    }
  }

  /** The two flags of the loop, read off the NALs already copied. */
  ghost predicate PictureBefore(kept: seq<seq<byte>>, i: nat)
    requires AllKept(kept) && i <= |kept|
  {
    exists j: nat :: j < i && IsSliceOrSei(TypeAt(kept, j))
  }

  ghost predicate ParamsStillValid(kept: seq<seq<byte>>, i: nat)
    requires AllKept(kept) && i <= |kept|
  {
    exists j: nat :: j < i && TypeAt(kept, j) == 5 && forall m: nat :: j < m < i ==> TypeAt(kept, m) != 1
  }

  lemma FlagsAdvance(kept: seq<seq<byte>>, i: nat)
    requires AllKept(kept) && i < |kept|
    ensures PictureBefore(kept, i + 1) <==> PictureBefore(kept, i) || IsSliceOrSei(TypeAt(kept, i))
    ensures ParamsStillValid(kept, i + 1)
       <==> if TypeAt(kept, i) == 1 then false else TypeAt(kept, i) == 5 || ParamsStillValid(kept, i)
  {
    if ParamsStillValid(kept, i) && TypeAt(kept, i) != 1 {
      var j: nat :| j < i && TypeAt(kept, j) == 5 && forall m: nat :: j < m < i ==> TypeAt(kept, m) != 1;
      assert forall m: nat :: j < m < i + 1 ==> TypeAt(kept, m) != 1;
    }
    if ParamsStillValid(kept, i + 1) && TypeAt(kept, i) != 5 {
      var j: nat :| j < i + 1 && TypeAt(kept, j) == 5 && forall m: nat :: j < m < i + 1 ==> TypeAt(kept, m) != 1;
      assert j < i && TypeAt(kept, i) != 1;
      assert forall m: nat :: j < m < i ==> TypeAt(kept, m) != 1;
    }
  }

  lemma {:induction false} LayoutFrom(kept: seq<seq<byte>>, params: seq<seq<byte>>, i: nat)
    requires AllKept(kept) && i <= |kept|
    ensures Units(kept[i..], params, PictureBefore(kept, i), ParamsStillValid(kept, i)) == Layout(kept, params, i)
    decreases |kept| - i
  {
    if i == |kept| {
    } else {
      assert kept[i..][0] == kept[i] && kept[i..][1..] == kept[i + 1..];
      FlagsAdvance(kept, i);
      LayoutFrom(kept, params, i + 1);
    }
  }

  /** The units of a message, said without the code's own tests and flags. */
  ghost function Expected(nals: seq<seq<byte>>, params: seq<seq<byte>>): seq<Unit> {
    Layout(Kept(nals), params, 0)
  }

  /** The flag-driven loop inserts exactly where the declarative description says. */
  lemma InsertionsGoWhereTheyShould(nals: seq<seq<byte>>, params: seq<seq<byte>>)
    ensures Units(nals, params, false, false) == Expected(nals, params)
  {
    var kept := Kept(nals);
    SkippedNalsDoNotMatter(nals, params, false, false);
    LayoutFrom(kept, params, 0);
    assert kept[0..] == kept;
  }

  // ----- the conversion of a whole message -----

  /** The codec state under which messages are converted: H.264 with some codec header. */
  predicate Converts(codec: CodecContext) {
    1 <= codec.nalBytes <= 4 && codec.h264 && codec.avcHeader != []
  }

  /** The parameter sets found in the codec header. */
  function Params(codec: CodecContext): seq<seq<byte>> {
    HeaderSets(Concat(codec.avcHeader))
  }

  function Picture(fmt: byte, cts: seq<byte>, nals: seq<seq<byte>>, nalBytes: nat): seq<byte> {
    [fmt, 1] + (cts + EncodeNals(nals, nalBytes))
  }

  lemma PictureLoop(codec: CodecContext, mlen: nat, fmt: byte, cts: seq<byte>, body: seq<byte>, capacity: nat)
    requires Converts(codec) && mlen >= 1 && |cts| == 3
    ensures Convert(Some(codec), mlen, [fmt, 1] + (cts + body), capacity)
         == NalLoop(body, codec.nalBytes, Concat(codec.avcHeader), Writer([], false, false), capacity)
  {
    var s := [fmt, 1] + (cts + body);
    DropFront([fmt, 1], cts + body);
    DropFront(cts, body);
    assert s[2..] == cts + body && s[5..] == s[2..][3..];
  }

  /** The buffer holds the stream of the units and one byte more. */
  predicate HasRoom(units: seq<Unit>, capacity: nat) {
    units == [] || |Stream(units, true)| < capacity
  }

  lemma RoomAtStart(codec: CodecContext, nals: seq<seq<byte>>, capacity: nat)
    requires HasRoom(Expected(nals, Params(codec)), capacity)
    ensures var w := Writer([], false, false);
            && Roomy(w, nals, Concat(codec.avcHeader), capacity)
            && Rendered(w, nals, Concat(codec.avcHeader)) == Stream(Expected(nals, Params(codec)), true)
  {
    var units := Units(nals, Params(codec), false, false);
    InsertionsGoWhereTheyShould(nals, Params(codec));
    RenderIsStream([], units);
    EmptyFront(Stream(units, true));
  }

  /** With room for the stream the outcome is the stream, or the error if the last NAL is a single
      byte. */
  lemma OutcomeWithRoom(codec: CodecContext, mlen: nat, fmt: byte, cts: seq<byte>,
                        nals: seq<seq<byte>>, capacity: nat)
    requires Converts(codec) && mlen >= 1 && |cts| == 3 && Fits(nals, codec.nalBytes)
    requires HasRoom(Expected(nals, Params(codec)), capacity)
    ensures Convert(Some(codec), mlen, Picture(fmt, cts, nals, codec.nalBytes), capacity)
         == if LastReadable(nals) then Converted(Stream(Expected(nals, Params(codec)), true))
            else Failed
  {
    PictureLoop(codec, mlen, fmt, cts, EncodeNals(nals, codec.nalBytes), capacity);
    RoomAtStart(codec, nals, capacity);
    LoopWritesUnits(nals, codec.nalBytes, Concat(codec.avcHeader), Writer([], false, false), capacity);
  }

  /** The stream of a picture message holds every NAL that is kept, with the insertions, if and
      only if the last NAL is not a single byte and the output buffer has a byte to spare. */
  lemma ConversionIsComplete(codec: CodecContext, mlen: nat, fmt: byte, cts: seq<byte>,
                             nals: seq<seq<byte>>, capacity: nat)
    requires Converts(codec) && mlen >= 1 && |cts| == 3 && Fits(nals, codec.nalBytes)
    ensures var units := Expected(nals, Params(codec));
            var stream := Stream(units, true);
            Convert(Some(codec), mlen, Picture(fmt, cts, nals, codec.nalBytes), capacity) == Converted(stream)
            <==> LastReadable(nals) && HasRoom(units, capacity)
  {
    var units := Expected(nals, Params(codec));
    var w := Writer([], false, false);
    var encoded := EncodeNals(nals, codec.nalBytes);
    PictureLoop(codec, mlen, fmt, cts, EncodeNals(nals, codec.nalBytes), capacity);
    if HasRoom(units, capacity) {
      OutcomeWithRoom(codec, mlen, fmt, cts, nals, capacity);
    } else if NalLoop(encoded, codec.nalBytes, Concat(codec.avcHeader), w, capacity) == Converted(Stream(units, true)) {
      ConvertedHasRoom(encoded, codec.nalBytes, Concat(codec.avcHeader), w, capacity);
      StreamLength(units, true);
    }
  }

  /** A message that ends in a one-byte NAL is never converted, however large the buffer. */
  lemma OneByteNalSpoilsMessage(codec: CodecContext, mlen: nat, fmt: byte, cts: seq<byte>, nals: seq<seq<byte>>,
                                capacity: nat)
    requires 1 <= codec.nalBytes <= 4 && |cts| == 3 && Fits(nals, codec.nalBytes) && !LastReadable(nals)
    ensures !Convert(Some(codec), mlen, Picture(fmt, cts, nals, codec.nalBytes), capacity).Converted?
  {
    var encoded, w := EncodeNals(nals, codec.nalBytes), Writer([], false, false);
    if Convert(Some(codec), mlen, Picture(fmt, cts, nals, codec.nalBytes), capacity).Converted? {
      PictureLoop(codec, mlen, fmt, cts, EncodeNals(nals, codec.nalBytes), capacity);
      var read := ConvertedIsFramed(encoded, codec.nalBytes, Concat(codec.avcHeader), w, capacity);
      EncodingIsInjective(nals, read, codec.nalBytes);
      assert false;
    }
  }

  /** The smallest such message: an end-of-sequence NAL, which is a single byte by definition. */
  lemma EndOfSequenceFails(codec: CodecContext, capacity: nat)
    requires codec.nalBytes == 1 && codec.h264 && codec.avcHeader != [] && capacity >= 6
    ensures Convert(Some(codec), 7, [0x17, 1, 0, 0, 0, 1, 0x0a], capacity) == Failed
  {
    var message: seq<byte> := [0x17, 1, 0, 0, 0, 1, 0x0a];
    assert message[5..] == [1, 0x0a] && message[5..][1..] == [0x0a] && message[5..][1..][1..] == [];
    assert message[5..][..1] == [1];
    assert BigEndian([1]) == 1 by {
      assert [1][..0] == [];
    }
  }

  /** The condition of section 7.4.1 of H.264 on what is copied. */
  predicate Section741(nals: seq<seq<byte>>) {
    forall i :: 0 <= i < |nals| ==> Clean(nals[i], false)
  }

  lemma {:induction false} UnitsAreClean(nals: seq<seq<byte>>, params: seq<seq<byte>>, audSent: bool, paramsSent: bool)
    requires Section741(nals) && Section741(params)
    ensures forall u :: u in Units(nals, params, audSent, paramsSent) ==> Clean(u.body, false)
    decreases |nals|
  {
    if nals == [] {
    } else {
      assert Section741(nals[1..]);
      if !IsKept(nals[0]) {
        UnitsAreClean(nals[1..], params, audSent, paramsSent);
      } else {
        var t := NalType(nals[0][0]);
        UnitsAreClean(nals[1..], params, audSent || IsPicture(t), if t == 1 then false else t == 5 || paramsSent);
        assert Clean(AUD, false);
        assert forall u :: u in AsInserted(params) ==> Clean(u.body, false);
      }
    }
  }

  lemma AllCleanFrom741(nals: seq<seq<byte>>, params: seq<seq<byte>>)
    requires Section741(nals) && Section741(params)
    ensures AllClean(Units(nals, params, false, false))
  {
    var units := Units(nals, params, false, false);
    UnitsAreClean(nals, params, false, false);
    assert forall i :: 0 <= i < |units| ==> units[i] in units;
  }

  /** The round trip: when everything fits, a receiver that scans the converted message for start
      codes finds the kept NALs and the insertions, in their places, if and only if each of them
      is clean; which it is when the source keeps to section 7.4.1. */
  lemma AnnexBRoundTrip(codec: CodecContext, mlen: nat, fmt: byte, cts: seq<byte>,
                        nals: seq<seq<byte>>, capacity: nat)
    requires Converts(codec) && mlen >= 1 && |cts| == 3 && Fits(nals, codec.nalBytes)
    requires LastReadable(nals)
    requires HasRoom(Expected(nals, Params(codec)), capacity)
    ensures var r := Convert(Some(codec), mlen, Picture(fmt, cts, nals, codec.nalBytes), capacity);
            var layout := Expected(nals, Params(codec));
            && r.Converted?
            && |r.bytes| == Sum(layout) + (if layout != [] && layout[0].Copied? then 1 else 0)
            && (Scan(r.bytes) == Bodies(layout) <==> AllClean(layout))
            && (Section741(nals) && Section741(Params(codec)) ==> Scan(r.bytes) == Bodies(layout))
  {
    var units := Units(nals, Params(codec), false, false);
    StreamLength(units, true);
    ConversionIsComplete(codec, mlen, fmt, cts, nals, capacity);
    ScanUndoesFraming(units, true);
    InsertionsGoWhereTheyShould(nals, Params(codec));
    if Section741(nals) && Section741(Params(codec)) {
      AllCleanFrom741(nals, Params(codec));
    }
  }
}
