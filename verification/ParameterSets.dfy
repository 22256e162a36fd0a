/** The parameter sets of a codec header: which sets a header holds, well-formed or not, and what
    copying them writes. */
module ParameterSets {
  import opened Bytes
  import opened Chain
  import opened ByteStream
  import opened NalLists
  import opened Avcc

  /** What is found in a header: whether it could be read to the end, what follows, and the sets.
      A set whose bytes are missing leaves its start code in the output: it counts as an empty one. */
  datatype Sets = Sets(ok: bool, rest: seq<byte>, nals: seq<seq<byte>>)

  function ReadSet(rest: seq<byte>): Sets {
    if !CanRead(rest, 2) then Sets(false, [], [])
    else
      var len, body := BigEndian(rest[..2]), rest[2..];
      if CanRead(body, len) then Sets(true, body[len..], [body[..len]]) else Sets(false, [], [[]])
  }

  function ReadSets(rest: seq<byte>, count: nat): Sets
    decreases count
  {
    if count == 0 then Sets(true, rest, [])
    else
      var one := ReadSet(rest);
      if !one.ok then one
      else
        var more := ReadSets(one.rest, count - 1);
        Sets(more.ok, more.rest, one.nals + more.nals)
  }

  function ReadList(rest: seq<byte>, masked: bool): Sets {
    if !CanRead(rest, 1) then Sets(false, [], [])
    else ReadSets(rest[1..], if masked then rest[0] % 32 else rest[0])
  }

  function ReadHeader(header: seq<byte>): Sets {
    if !CanRead(header, 10) then Sets(false, [], [])
    else
      var sps := ReadList(header[10..], true);
      if !sps.ok then sps
      else
        var pps := ReadList(sps.rest, false);
        Sets(pps.ok, pps.rest, sps.nals + pps.nals)
  }

  function HeaderSets(header: seq<byte>): seq<seq<byte>> {
    ReadHeader(header).nals
  }

  // ----- what copying them writes -----

  /** The copy is complete if and only if the sets could be read and fit; and if they fit it wrote
      exactly them, whether they could be read to the end or not. */
  predicate Writes(r: Appended, sets: Sets, all: seq<byte>, capacity: nat) {
    && (r.ok <==> sets.ok && |all| <= capacity)
    && (|all| <= capacity ==> r == Appended(sets.ok, sets.rest, all))
  }

  lemma RenderInserted(out: seq<byte>, nal: seq<byte>)
    ensures RenderFrom(out, AsInserted([nal])) == (out + [0, 0, 0, 1]) + nal
  {
    InsertedFrame(out, nal);
    assert AsInserted([nal])[1..] == [];
    assert AsInserted([nal])[0] == Inserted(nal);
  }

  lemma AppendNalMeaning(rest: seq<byte>, out: seq<byte>, capacity: nat)
    requires |out| <= capacity
    ensures Writes(AppendNal(rest, out, capacity), ReadSet(rest), RenderFrom(out, AsInserted(ReadSet(rest).nals)),
                   capacity)
  {
    if CanRead(rest, 2) {
      var len, body := BigEndian(rest[..2]), rest[2..];
      var nal := if CanRead(body, len) then body[..len] else [];
      RenderInserted(out, nal);
      AppendNothing(out + [0, 0, 0, 1]);
    }
  }

  /** Two copies, one after the other. */
  lemma WritesBoth(a: Appended, b: Appended, first: Sets, more: Sets, out: seq<byte>, capacity: nat)
    requires first.ok && Writes(a, first, RenderFrom(out, AsInserted(first.nals)), capacity)
    requires a.ok ==> Writes(b, more, RenderFrom(a.out, AsInserted(more.nals)), capacity)
    ensures Writes(if a.ok then b else a, Sets(more.ok, more.rest, first.nals + more.nals),
                   RenderFrom(out, AsInserted(first.nals + more.nals)), capacity)
  {
    AsInsertedAppend(first.nals, more.nals);
    RenderAppend(out, AsInserted(first.nals), AsInserted(more.nals));
    RenderGrows(RenderFrom(out, AsInserted(first.nals)), AsInserted(more.nals));
  }

  lemma {:induction false} AppendNalsMeaning(rest: seq<byte>, count: nat, out: seq<byte>, capacity: nat)
    requires |out| <= capacity
    ensures var sets := ReadSets(rest, count);
            Writes(AppendNals(rest, count, out, capacity), sets, RenderFrom(out, AsInserted(sets.nals)), capacity)
    decreases count
  {
    if count == 0 {
    } else {
      var one, r := ReadSet(rest), AppendNal(rest, out, capacity);
      AppendNalMeaning(rest, out, capacity);
      if one.ok {
        if r.ok {
          AppendNalsMeaning(one.rest, count - 1, r.out, capacity);
        }
        WritesBoth(r, AppendNals(r.rest, count - 1, r.out, capacity), one, ReadSets(one.rest, count - 1), out,
                   capacity);
      }
    }
  }

  lemma AppendListMeaning(rest: seq<byte>, masked: bool, out: seq<byte>, capacity: nat)
    requires |out| <= capacity
    ensures var sets := ReadList(rest, masked);
            Writes(AppendList(rest, masked, out, capacity), sets, RenderFrom(out, AsInserted(sets.nals)), capacity)
  {
    if CanRead(rest, 1) {
      AppendNalsMeaning(rest[1..], if masked then rest[0] % 32 else rest[0], out, capacity);
    }
  }

  /** For every header, truncated or malformed ones included: if they fit, exactly the sets found in
      it are written. */
  lemma AppendSpsPpsMeaning(header: seq<byte>, out: seq<byte>, capacity: nat)
    requires |out| <= capacity
    ensures Writes(AppendSpsPps(header, out, capacity), ReadHeader(header),
                   RenderFrom(out, AsInserted(HeaderSets(header))), capacity)
  {
    if CanRead(header, 10) {
      var sps, r := ReadList(header[10..], true), AppendList(header[10..], true, out, capacity);
      AppendListMeaning(header[10..], true, out, capacity);
      if sps.ok {
        if r.ok {
          AppendListMeaning(sps.rest, false, r.out, capacity);
        }
        WritesBoth(r, AppendList(r.rest, false, r.out, capacity), sps, ReadList(sps.rest, false), out, capacity);
      }
    }
  }

  // ----- what a failing copy writes -----

  /** `part` lies between the output before and the complete one. */
  predicate IsPart(out: seq<byte>, part: seq<byte>, all: seq<byte>) {
    out <= part && part <= all
  }

  lemma RenderExtends(out: seq<byte>, units: seq<Unit>)
    ensures out <= RenderFrom(out, units)
  {
    RenderIsStream(out, units);
  }

  lemma AppendNalWritesPart(rest: seq<byte>, out: seq<byte>, capacity: nat)
    requires |out| <= capacity
    ensures IsPart(out, AppendNal(rest, out, capacity).out, RenderFrom(out, AsInserted(ReadSet(rest).nals)))
  {
    if CanRead(rest, 2) {
      var len, body := BigEndian(rest[..2]), rest[2..];
      RenderInserted(out, if CanRead(body, len) then body[..len] else []);
    }
  }

  /** Two copies, the second one only if the first went well. */
  lemma PartOfBoth(a: Appended, b: Appended, first: Sets, more: Sets, out: seq<byte>, capacity: nat)
    requires first.ok && Writes(a, first, RenderFrom(out, AsInserted(first.nals)), capacity)
    requires IsPart(out, a.out, RenderFrom(out, AsInserted(first.nals)))
    requires a.ok ==> IsPart(a.out, b.out, RenderFrom(a.out, AsInserted(more.nals)))
    ensures IsPart(out, if a.ok then b.out else a.out, RenderFrom(out, AsInserted(first.nals + more.nals)))
  {
    AsInsertedAppend(first.nals, more.nals);
    RenderAppend(out, AsInserted(first.nals), AsInserted(more.nals));
    RenderExtends(RenderFrom(out, AsInserted(first.nals)), AsInserted(more.nals));
  }

  lemma {:induction false} AppendNalsWritesPart(rest: seq<byte>, count: nat, out: seq<byte>, capacity: nat)
    requires |out| <= capacity
    ensures IsPart(out, AppendNals(rest, count, out, capacity).out,
                   RenderFrom(out, AsInserted(ReadSets(rest, count).nals)))
    decreases count
  {
    if count == 0 {
    } else {
      var one, r := ReadSet(rest), AppendNal(rest, out, capacity);
      AppendNalMeaning(rest, out, capacity);
      AppendNalWritesPart(rest, out, capacity);
      if one.ok {
        if r.ok {
          AppendNalsWritesPart(one.rest, count - 1, r.out, capacity);
        }
        PartOfBoth(r, AppendNals(r.rest, count - 1, r.out, capacity), one, ReadSets(one.rest, count - 1), out,
                   capacity);
      }
    }
  }

  lemma AppendListWritesPart(rest: seq<byte>, masked: bool, out: seq<byte>, capacity: nat)
    requires |out| <= capacity
    ensures IsPart(out, AppendList(rest, masked, out, capacity).out,
                   RenderFrom(out, AsInserted(ReadList(rest, masked).nals)))
  {
    if CanRead(rest, 1) {
      AppendNalsWritesPart(rest[1..], if masked then rest[0] % 32 else rest[0], out, capacity);
    }
  }

  /** Whether it fits or not, a copy writes a front of the sets found, and nothing else. */
  lemma AppendSpsPpsWritesPart(header: seq<byte>, out: seq<byte>, capacity: nat)
    requires |out| <= capacity
    ensures IsPart(out, AppendSpsPps(header, out, capacity).out, RenderFrom(out, AsInserted(HeaderSets(header))))
  {
    if CanRead(header, 10) {
      var sps, r := ReadList(header[10..], true), AppendList(header[10..], true, out, capacity);
      AppendListMeaning(header[10..], true, out, capacity);
      AppendListWritesPart(header[10..], true, out, capacity);
      if sps.ok {
        if r.ok {
          AppendListWritesPart(sps.rest, false, r.out, capacity);
        }
        PartOfBoth(r, AppendList(r.rest, false, r.out, capacity), sps, ReadList(sps.rest, false), out, capacity);
      }
    }
  }

  // ----- well-formed headers -----

  /** At the end of the chain even an empty read fails, so an empty set must not come last. */
  predicate EndsReadably(nals: seq<seq<byte>>, tail: seq<byte>) {
    nals != [] && nals[|nals| - 1] == [] ==> tail != []
  }

  lemma StillReadable(nal: seq<byte>, more: seq<seq<byte>>, tail: seq<byte>)
    requires EndsReadably(more, tail) && (nal == [] ==> EncodeNals(more, 2) + tail != [])
    ensures EndsReadably([nal] + more, tail)
  {
    if more == [] {
      EmptyFront(tail);
    }
  }

  /** The configuration record: ten bytes up to and including the length size, the sequence
      parameter sets (whose count shares its byte with three reserved bits), the picture parameter
      sets, anything. */
  datatype Configuration = Configuration(head: seq<byte>, spsCount: byte, sps: seq<seq<byte>>,
                                         pps: seq<seq<byte>>, tail: seq<byte>)
  {
    predicate WellFormed() {
      && |head| == 10 && spsCount % 32 == |sps| && |pps| < 256 && Fits(sps, 2) && Fits(pps, 2)
      && EndsReadably(pps, tail)
    }

    function Bytes(): seq<byte>
      requires WellFormed()
    {
      head + ([spsCount] + (EncodeNals(sps, 2) + ([|pps|] + (EncodeNals(pps, 2) + tail))))
    }
  }

  /** What a read of the first set of a list sees. */
  lemma FramedSetIsRead(nal: seq<byte>, rest: seq<byte>)
    requires |nal| < Pow256(2) && nal + rest != []
    ensures ReadSet(ToBigEndian(|nal|, 2) + (nal + rest)) == Sets(true, rest, [nal])
  {
    BigEndianRoundTrip(|nal|, 2);
    DropFront(ToBigEndian(|nal|, 2), nal + rest);
    DropFront(nal, rest);
  }

  lemma {:induction false} FramedSetsAreRead(nals: seq<seq<byte>>, tail: seq<byte>)
    requires Fits(nals, 2) && EndsReadably(nals, tail)
    ensures ReadSets(EncodeNals(nals, 2) + tail, |nals|) == Sets(true, tail, nals)
    decreases |nals|
  {
    if nals == [] {
      EmptyFront(tail);
    } else {
      var nal, more := nals[0], nals[1..];
      assert nals == [nal] + more;
      assert more != [] ==> |EncodeNals(more, 2)| >= 2;
      EncodedBefore(nal, more, 2, tail);
      FramedSetIsRead(nal, EncodeNals(more, 2) + tail);
      FramedSetsAreRead(more, tail);
    }
  }

  /** The bytes are the sets, each behind its length, and what follows. */
  predicate Framed(rest: seq<byte>, sets: Sets) {
    Fits(sets.nals, 2) && EndsReadably(sets.nals, sets.rest) && rest == EncodeNals(sets.nals, 2) + sets.rest
  }

  lemma SetIsFramed(rest: seq<byte>)
    requires ReadSet(rest).ok
    ensures var one := ReadSet(rest);
            && |one.nals| == 1 && |one.nals[0]| < Pow256(2)
            && rest == ToBigEndian(|one.nals[0]|, 2) + (one.nals[0] + one.rest)
            && one.nals[0] + one.rest != []
  {
    var field, body := rest[..2], rest[2..];
    ToBigEndianRoundTrip(field);
    SplitAt(rest, 2);
    SplitAt(body, BigEndian(field));
  }

  lemma OneMoreFramed(nal: seq<byte>, behind: seq<byte>, more: Sets)
    requires |nal| < Pow256(2) && nal + behind != [] && Framed(behind, more)
    ensures Framed(ToBigEndian(|nal|, 2) + (nal + behind), Sets(more.ok, more.rest, [nal] + more.nals))
  {
    FitsWith(nal, more.nals, 2);
    EncodedBefore(nal, more.nals, 2, more.rest);
    StillReadable(nal, more.nals, more.rest);
  }

  lemma {:induction false} SetsAreFramed(rest: seq<byte>, count: nat)
    requires ReadSets(rest, count).ok
    ensures |ReadSets(rest, count).nals| == count && Framed(rest, ReadSets(rest, count))
    decreases count
  {
    if count == 0 {
      EmptyFront(rest);
    } else {
      var one := ReadSet(rest);
      SetIsFramed(rest);
      SetsAreFramed(one.rest, count - 1);
      assert one.nals == [one.nals[0]];
      OneMoreFramed(one.nals[0], one.rest, ReadSets(one.rest, count - 1));
    }
  }

  /** A well-formed record is read completely: all its sets, in order. */
  lemma ConfigurationIsRead(cfg: Configuration)
    requires cfg.WellFormed()
    ensures ReadHeader(cfg.Bytes()) == Sets(true, cfg.tail, cfg.sps + cfg.pps)
  {
    var pps := [|cfg.pps|] + (EncodeNals(cfg.pps, 2) + cfg.tail);
    DropFront(cfg.head, [cfg.spsCount] + (EncodeNals(cfg.sps, 2) + pps));
    DropFront([cfg.spsCount], EncodeNals(cfg.sps, 2) + pps);
    FramedSetsAreRead(cfg.sps, pps);
    DropFront([|cfg.pps|], EncodeNals(cfg.pps, 2) + cfg.tail);
    FramedSetsAreRead(cfg.pps, cfg.tail);
  }

  lemma ListIsFramed(rest: seq<byte>, masked: bool)
    requires ReadList(rest, masked).ok
    ensures var sets := ReadList(rest, masked);
            && rest != [] && |sets.nals| == (if masked then rest[0] % 32 else rest[0])
            && Fits(sets.nals, 2) && EndsReadably(sets.nals, sets.rest)
            && rest == [rest[0]] + (EncodeNals(sets.nals, 2) + sets.rest)
  {
    SetsAreFramed(rest[1..], if masked then rest[0] % 32 else rest[0]);
    SplitAt(rest, 1);
  }

  /** Conversely only well-formed records are. */
  lemma ReadIsConfiguration(header: seq<byte>) returns (cfg: Configuration)
    requires ReadHeader(header).ok
    ensures cfg.WellFormed() && cfg.Bytes() == header && cfg.sps + cfg.pps == HeaderSets(header)
  {
    var sps := ReadList(header[10..], true);
    var pps := ReadList(sps.rest, false);
    ListIsFramed(header[10..], true);
    ListIsFramed(sps.rest, false);
    cfg := Configuration(header[..10], header[10..][0], sps.nals, pps.nals, pps.rest);
    assert [|pps.nals|] == [sps.rest[0]];
    SplitAt(header, 10);
  }

  /** append_sps_pps succeeds if and only if the header is a well-formed record and its sets fit. */
  lemma AppendSucceedsExactlyWhen(header: seq<byte>, out: seq<byte>, capacity: nat)
    requires |out| <= capacity
    ensures AppendSpsPps(header, out, capacity).ok
       <==> (exists cfg: Configuration :: cfg.WellFormed() && cfg.Bytes() == header)
            && |RenderFrom(out, AsInserted(HeaderSets(header)))| <= capacity
  {
    AppendSpsPpsMeaning(header, out, capacity);
    if ReadHeader(header).ok {
      var cfg := ReadIsConfiguration(header);
    }
    if cfg: Configuration :| cfg.WellFormed() && cfg.Bytes() == header {
      ConfigurationIsRead(cfg);
    }
  }
}
