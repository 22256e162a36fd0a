/** The conversion as the gateway runs it: cursors over chains, one output buffer written step by
    step. Every method is proved to compute its flat counterpart in Avcc, so none of them depends
    on how the bytes are split over the chain. */
module VideoRewriter {
  import opened Wrappers
  import opened Bytes
  import opened Chain
  import opened Avcc

  lemma SpliceFront(before: seq<byte>, at: nat, piece: seq<byte>)
    requires at + |piece| <= |before|
    ensures Splice(before, at, piece)[..at + |piece|] == before[..at] + piece
    ensures Splice(before, at, piece)[..at] == before[..at]
  {
  }

  lemma TakeTake(a: array<byte>, n: nat)
    requires n <= a.Length
    ensures a[..][..n] == a[..n]
  {
  }

  /** The output buffer: `last` is the distance of the write pointer from the start. */
  class Buffer {
    const data: array<byte>
    var last: nat

    ghost predicate Valid()
      reads this
    {
      last <= data.Length
    }

    ghost function Contents(): seq<byte>
      requires Valid()
      reads this, data
    {
      data[..last]
    }

    constructor (memory: array<byte>)
      ensures Valid() && data == memory && Contents() == []
    {
      data := memory;
      last := 0;
    }

    method Put(b: byte)
      requires Valid() && last < data.Length
      modifies this, data
      ensures Valid()
      ensures Contents() == old(Contents()) + [b]
    {
      data[last] := b;
      last := last + 1;
    }

    method PutLongStartCode()
      requires Valid() && last + 4 <= data.Length
      modifies this, data
      ensures Valid()
      ensures Contents() == old(Contents()) + [0, 0, 0, 1]
    {
      Put(0);
      Put(0);
      Put(0);
      Put(1);
    }

    method PutShortStartCode()
      requires Valid() && last + 3 <= data.Length
      modifies this, data
      ensures Valid()
      ensures Contents() == old(Contents()) + [0, 0, 1]
    {
      Put(0);
      Put(0);
      Put(1);
    }

    /** A read from the chain into the free part of the buffer. */
    method Fill(cursor: Cursor, n: nat) returns (ok: bool)
      requires Valid() && last + n <= data.Length
      requires cursor.Valid() && cursor.Normal()
      modifies this, data, cursor
      ensures Valid() && cursor.Valid() && cursor.Normal()
      ensures ok <==> CanRead(old(cursor.Rest()), n)
      ensures ok ==> Contents() == old(Contents()) + old(cursor.Rest())[..n]
      ensures ok ==> cursor.Rest() == old(cursor.Rest())[n..]
      ensures !ok ==> Contents() == old(Contents())
    {
      cursor.EndOfChain();
      ghost var before := data[..];
      ghost var bytes := cursor.Rest();
      ok := cursor.Copy(data, last, n);
      if ok {
        SpliceFront(before, last, bytes[..n]);
        TakeTake(data, last + n);
        last := last + n;
      } else if bytes != [] {
        SpliceFront(before, last, bytes);
      }
    }
  }

  method AppendAudNal(out: Buffer) returns (ok: bool)
    requires out.Valid()
    modifies out, out.data
    ensures out.Valid()
    ensures out.Contents() == AppendAud(old(out.Contents()), out.data.Length)
    ensures ok <==> old(out.last) + 6 <= out.data.Length
  {
    if out.last + 6 > out.data.Length {
      return false;
    }
    out.PutLongStartCode();
    out.Put(0x09);
    out.Put(0xf0);
    return true;
  }

  /** The outcome of an append is the flat one; where the cursor stands after a failure does
      not matter. */
  ghost predicate Matches(cursor: Cursor, out: Buffer, ok: bool, r: Appended)
    requires out.Valid() && cursor.Valid()
    reads cursor, out, out.data
  {
    out.Contents() == r.out && ok == r.ok && (ok ==> cursor.Rest() == r.rest)
  }

  /** One parameter set: its two-byte length, a long start code, its bytes. */
  method AppendOne(cursor: Cursor, out: Buffer) returns (ok: bool)
    requires out.Valid() && cursor.Valid() && cursor.Normal()
    modifies out, out.data, cursor
    ensures out.Valid() && cursor.Valid() && cursor.Normal()
    ensures Matches(cursor, out, ok, AppendNal(old(cursor.Rest()), old(out.Contents()), out.data.Length))
  {
    var rlen;
    ok, rlen := ReadLocal(cursor, 2);
    if !ok {
      return false;
    }
    var len := BigEndian(rlen[..]);
    if out.data.Length - out.last < 4 {
      return false;
    }
    out.PutLongStartCode();
    if out.data.Length - out.last < len {
      return false;
    }
    ok := out.Fill(cursor, len);
  }

  /** One signed-byte countdown over length-prefixed parameter sets. */
  method AppendCounted(count: int, cursor: Cursor, out: Buffer) returns (ok: bool)
    requires -128 <= count <= 127
    requires out.Valid() && cursor.Valid() && cursor.Normal()
    modifies out, out.data, cursor
    ensures out.Valid() && cursor.Valid() && cursor.Normal()
    ensures Matches(cursor, out, ok,
                    AppendNals(old(cursor.Rest()), AsUnsigned(count), old(out.Contents()), out.data.Length))
  {
    ghost var goal := AppendNals(cursor.Rest(), AsUnsigned(count), out.Contents(), out.data.Length);
    var nnals := count;
    while nnals != 0
      invariant -128 <= nnals <= 127
      invariant out.Valid() && cursor.Valid() && cursor.Normal()
      invariant goal == AppendNals(cursor.Rest(), AsUnsigned(nnals), out.Contents(), out.data.Length)
      decreases AsUnsigned(nnals)
    {
      ghost var one := AppendNal(cursor.Rest(), out.Contents(), out.data.Length);
      ok := AppendOne(cursor, out);
      if !ok {
        assert goal == one;
        return false;
      }
      nnals := if nnals == -128 then 127 else nnals - 1;
    }
    return true;
  }

  /** A count, read into a signed byte, and that many parameter sets. */
  method AppendCountAndSets(cursor: Cursor, masked: bool, out: Buffer) returns (ok: bool)
    requires out.Valid() && cursor.Valid() && cursor.Normal()
    modifies out, out.data, cursor
    ensures out.Valid() && cursor.Valid() && cursor.Normal()
    ensures Matches(cursor, out, ok, AppendList(old(cursor.Rest()), masked, old(out.Contents()), out.data.Length))
  {
    var nnals;
    ok, nnals := ReadLocal(cursor, 1);
    if !ok {
      return false;
    }
    ok := AppendCounted(AsInt8(if masked then nnals[0] % 32 else nnals[0]), cursor, out);
  }

  method AppendParameterSets(header: seq<seq<byte>>, out: Buffer) returns (ok: bool)
    requires out.Valid()
    modifies out, out.data
    ensures out.Valid()
    ensures var r := AppendSpsPps(Concat(header), old(out.Contents()), out.data.Length);
            out.Contents() == r.out && ok == r.ok
  {
    if header == [] {
      return false;
    }
    var cursor := new Cursor(header);
    ok := Skip(cursor, 10);
    if !ok {
      return false;
    }
    ok := AppendCountAndSets(cursor, true, out);
    if !ok {
      return false;
    }
    ok := AppendCountAndSets(cursor, false, out);
  }

  /** The two switch statements in front of a copied NAL. */
  method InsertBefore(header: seq<seq<byte>>, out: Buffer, audSent: bool, paramsSent: bool, t: nat)
    returns (aud: bool, params: bool)
    requires out.Valid()
    modifies out, out.data
    ensures out.Valid()
    ensures Writer(out.Contents(), aud, params)
         == Insert(Concat(header), Writer(old(out.Contents()), audSent, paramsSent), t, out.data.Length)
  {
    aud, params := audSent, paramsSent;
    if !aud {
      if IsPicture(t) {
        var _ := AppendAudNal(out);
        aud := true;
      }
    }
    if t == 1 {
      params := false;
    } else if t == 5 {
      if !params {
        var _ := AppendParameterSets(header, out);
        params := true;
      }
    }
  }

  /** The bytes of a NAL behind its first one, and what stands in front of them. */
  method CopyNal(cursor: Cursor, out: Buffer, first: byte, len: nat) returns (r: Outcome)
    requires out.Valid() && cursor.Valid() && cursor.Normal() && len >= 1
    modifies out, out.data, cursor
    ensures out.Valid() && cursor.Valid() && cursor.Normal()
    ensures var before, body, capacity := old(out.Contents()), old(cursor.Rest()), out.data.Length;
            if capacity - |before| < 5 || capacity - |Prefixed(before, first)| < len then r == Ignored
            else if !CanRead(body, len - 1) then r == Failed
            else r.Converted? && out.Contents() == Prefixed(before, first) + body[..len - 1]
                 && cursor.Rest() == body[len - 1..]
  {
    if out.data.Length - out.last < 5 {
      return Ignored;
    }
    ghost var before := out.Contents();
    if out.last == 0 {
      out.Put(0);
    }
    out.PutShortStartCode();
    out.Put(first);
    assert out.Contents() == Prefixed(before, first);
    if out.data.Length - out.last < len {
      return Ignored;
    }
    var ok := out.Fill(cursor, len - 1);
    r := if ok then Converted([]) else Failed;
  }

  /** The part of a NAL behind its first byte. */
  method ConvertBody(header: seq<seq<byte>>, cursor: Cursor, out: Buffer, first: byte, len: nat, audSent: bool,
                     paramsSent: bool)
    returns (go: bool, r: Outcome, aud: bool, params: bool)
    requires out.Valid() && cursor.Valid() && cursor.Normal() && len >= 1
    modifies out, out.data, cursor
    ensures out.Valid() && cursor.Valid() && cursor.Normal()
    ensures NalBody(first, len, old(cursor.Rest()), Concat(header),
                    Writer(old(out.Contents()), audSent, paramsSent), out.data.Length)
         == if go then Continue(cursor.Rest(), Writer(out.Contents(), aud, params)) else Stop(r)
  {
    aud, params := audSent, paramsSent;
    var t := NalType(first);
    if 7 <= t <= 9 {
      var ok := Skip(cursor, len - 1);
      return ok, Failed, aud, params;
    }
    aud, params := InsertBefore(header, out, aud, params, t);
    r := CopyNal(cursor, out, first, len);
    go := r.Converted?;
  }

  /** One pass of the loop over the NALs; r is Ignored or Failed when the function ends there. */
  method ConvertNal(codec: CodecContext, cursor: Cursor, out: Buffer, audSent: bool, paramsSent: bool)
    returns (go: bool, r: Outcome, aud: bool, params: bool)
    requires 1 <= codec.nalBytes <= 4
    requires out.Valid() && cursor.Valid() && cursor.Normal()
    modifies out, out.data, cursor
    ensures out.Valid() && cursor.Valid() && cursor.Normal()
    ensures NalStep(old(cursor.Rest()), codec.nalBytes, Concat(codec.avcHeader),
                    Writer(old(out.Contents()), audSent, paramsSent), out.data.Length)
         == if go then Continue(cursor.Rest(), Writer(out.Contents(), aud, params)) else Stop(r)
  {
    aud, params := audSent, paramsSent;
    var ok, rlen := ReadLocal(cursor, codec.nalBytes);
    if !ok {
      return false, Ignored, aud, params;
    }
    var len := BigEndian(rlen[..]);
    if len == 0 {
      return true, Ignored, aud, params;
    }
    var first;
    ok, first := ReadLocal(cursor, 1);
    if !ok {
      return false, Ignored, aud, params;
    }
    go, r, aud, params := ConvertBody(codec.avcHeader, cursor, out, first[0], len, aud, params);
  }

  /** The loop over the NALs of a message. */
  method ConvertNals(codec: CodecContext, cursor: Cursor, out: Buffer) returns (r: Outcome)
    requires 1 <= codec.nalBytes <= 4
    requires out.Valid() && cursor.Valid() && cursor.Normal()
    modifies out, out.data, cursor
    ensures r == NalLoop(old(cursor.Rest()), codec.nalBytes, Concat(codec.avcHeader),
                         Writer(old(out.Contents()), false, false), out.data.Length)
  {
    ghost var header, capacity := Concat(codec.avcHeader), out.data.Length;
    var audSent, paramsSent := false, false;
    ghost var goal := NalLoop(cursor.Rest(), codec.nalBytes, header, Writer(out.Contents(), false, false), capacity);
    cursor.EndOfChain();
    while cursor.links != []
      invariant out.Valid() && cursor.Valid() && cursor.Normal()
      invariant cursor.links == [] <==> cursor.Rest() == []
      invariant goal == NalLoop(cursor.Rest(), codec.nalBytes, header,
                                Writer(out.Contents(), audSent, paramsSent), capacity)
      decreases |cursor.Rest()|
    {
      var go;
      go, r, audSent, paramsSent := ConvertNal(codec, cursor, out, audSent, paramsSent);
      if !go {
        return;
      }
      cursor.EndOfChain();
    }
    return Converted(out.data[..out.last]);
  }

  /** A picture message becomes an Annex B stream: `chain` is the chain of the message, `memory`
      the static output buffer. */
  method AvccToAnnexB(codec: Option<CodecContext>, mlen: nat, chain: seq<seq<byte>>, memory: array<byte>)
    returns (r: Outcome)
    requires ValidCodec(codec)
    requires chain != []
    modifies memory
    ensures r == Convert(codec, mlen, Concat(chain), memory.Length)
  {
    if codec.None? || codec.value.avcHeader == [] || mlen < 1 {
      return Ignored;
    }
    if !codec.value.h264 {
      return Ignored;
    }
    var cursor := new Cursor(chain);
    var ok, fmt := ReadLocal(cursor, 1);
    if !ok {
      return Failed;
    }
    var htype;
    ok, htype := ReadLocal(cursor, 1);
    if !ok {
      return Failed;
    }
    if htype[0] != 1 {
      return Ignored;
    }
    var cts;
    ok, cts := ReadLocal(cursor, 3);
    if !ok {
      return Failed;
    }
    assert cursor.Rest() == Concat(chain)[5..];
    var out := new Buffer(memory);
    r := ConvertNals(codec.value, cursor, out);
  }
}
