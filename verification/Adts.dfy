/** ADTS frames: the audio messages of the stream, each with a seven-byte header in front, put
    together in a reused buffer and handed to the decoder one message later. */
module Adts {
  import opened Wrappers
  import opened Arithmetic
  import opened Bytes
  import opened Chain

  const BUFFER_SIZE := 2048
  const HEADER_SIZE := 7

  /** What ngx_parse_aac_header extracts from the AudioSpecificConfig. */
  datatype AacConfig = AacConfig(objtype: nat, srindex: nat, chconf: nat)
  {
    predicate Valid() {
      1 <= objtype <= 4 && srindex < 15 && chconf < 16
    }
  }

  function ParseAacHeader(header: seq<byte>): (r: Option<AacConfig>)
    ensures r.Some? ==> |header| >= 4 && r.value.Valid()
  {
    if !CanRead(header, 2) || !CanRead(header[2..], 1) || !CanRead(header[3..], 1) then None
    else
      var b0: nat, b1: nat := header[2], header[3];
      var objtype := b0 / 8;
      var srindex := (b0 * 2) % 16 + b1 / 128;
      if objtype == 0 || objtype == 0x1f || srindex == 15 then None
      else Some(AacConfig(if objtype > 4 then 2 else objtype, srindex, (b1 / 8) % 16))
  }

  /** The header bytes; the fields or-ed together do not overlap, so they are added here. */
  function AdtsHeader(cfg: AacConfig, size: nat): (h: seq<byte>)
    requires cfg.Valid()
    ensures |h| == HEADER_SIZE
  {
    [ 0xff,
      0xf1,
      ((cfg.objtype - 1) * 64 + cfg.srindex * 4 + (cfg.chconf / 4) % 2) % 256,
      ((cfg.chconf % 4) * 64 + (size / 2048) % 4) % 256,
      (size / 8) % 256,
      (size * 32) % 256 + 31,
      0xfc ]
  }

  /** A bit field of a seven-byte header: `below` is 2 to the number of bits behind it, `range`
      2 to its width. */
  function Field(h: seq<byte>, below: nat, range: nat): nat
    requires |h| == HEADER_SIZE && below > 0 && range > 0
  {
    BigEndian(h) / below % range
  }

  lemma BigEndianLast(h: seq<byte>, n: nat)
    requires 0 < n <= |h|
    ensures BigEndian(h[..n]) == 256 * BigEndian(h[..n - 1]) + h[n - 1]
  {
    assert h[..n][..n - 1] == h[..n - 1];
  }

  lemma BigEndian7(h: seq<byte>)
    requires |h| == HEADER_SIZE
    ensures BigEndian(h) == h[0] as int * 0x1000000000000 + h[1] as int * 0x10000000000
                            + h[2] as int * 0x100000000 + h[3] as int * 0x1000000
                            + h[4] as int * 0x10000 + h[5] as int * 0x100 + h[6]
  {
    assert BigEndian(h[..0]) == 0;
    BigEndianLast(h, 1);
    BigEndianLast(h, 2);
    BigEndianLast(h, 3);
    BigEndianLast(h, 4);
    BigEndianLast(h, 5);
    BigEndianLast(h, 6);
    BigEndianLast(h, 7);
    assert h[..7] == h;
  }

  lemma Extract(n: nat, above: nat, value: nat, rest: nat, below: nat, range: nat)
    requires value < range && rest < below && n == (above * range + value) * below + rest
    ensures n / below % range == value
  {
    Quotient(n, below, above * range + value, rest);
    Quotient(above * range + value, range, above, value);
  }

  /** The header as one number. */
  function HeaderValue(profile: nat, srindex: nat, channels: nat, length: nat): nat {
    ((0xfff1 * 4 + profile) * 16 + srindex) * 0x400000000 + channels * 0x40000000 + length * 0x2000 + 0x1ffc
  }

  lemma ChannelBits(c: nat)
    requires c < 16
    ensures c / 4 % 2 == c % 8 / 4 && c % 4 == c % 8 % 4
  {
  }

  lemma ConfigBytes(cfg: AacConfig, size: nat)
    requires cfg.Valid() && size < 8192
    ensures var h := AdtsHeader(cfg, size);
            && h[2] == (cfg.objtype - 1) * 64 + cfg.srindex * 4 + cfg.chconf % 8 / 4
            && h[3] == cfg.chconf % 8 % 4 * 64 + size / 2048
  {
    var high := size / 2048;
    assert high < 4;
    ChannelBits(cfg.chconf);
  }

  lemma LengthBytes(cfg: AacConfig, size: nat)
    requires cfg.Valid() && size < 8192
    ensures var h := AdtsHeader(cfg, size);
            h[4] == size / 8 % 256 && h[5] == size % 8 * 32 + 31
  {
    assert size * 32 == size / 8 * 256 + size % 8 * 32;
  }

  lemma SizeParts(size: nat)
    requires size < 8192
    ensures size == size / 2048 * 2048 + size / 8 % 256 * 8 + size % 8
  {
  }

  lemma HeaderAsNumber(cfg: AacConfig, size: nat)
    requires cfg.Valid() && size < 8192
    ensures BigEndian(AdtsHeader(cfg, size)) == HeaderValue(cfg.objtype - 1, cfg.srindex, cfg.chconf % 8, size)
  {
    var ch := cfg.chconf % 8;
    BigEndian7(AdtsHeader(cfg, size));
    ConfigBytes(cfg, size);
    LengthBytes(cfg, size);
    SizeParts(size);
    assert ch == ch / 4 * 4 + ch % 4;
  }

  lemma FieldsOfNumber(o: nat, s: nat, c: nat, l: nat)
    requires o < 4 && s < 16 && c < 8 && l < 8192
    ensures var n := HeaderValue(o, s, c, l);
            && n / 0x100000000000 % 0x1000 == 0xfff
            && n / 0x80000000000 % 2 == 0
            && n / 0x20000000000 % 4 == 0
            && n / 0x10000000000 % 2 == 1
            && n / 0x4000000000 % 4 == o
            && n / 0x400000000 % 16 == s
            && n / 0x40000000 % 8 == c
            && n / 0x2000 % 0x2000 == l
            && n / 4 % 0x800 == 0x7ff
            && n / 1 % 4 == 0
  {
    var n := HeaderValue(o, s, c, l);
    var head := (0xfff1 * 4 + o) * 16 + s;
    var tail := l * 0x2000 + 0x1ffc;
    Extract(n, 0, 0xfff, n - 0xfff * 0x100000000000, 0x100000000000, 0x1000);
    Extract(n, 0xfff, 0, n - 0xfff * 0x100000000000, 0x80000000000, 2);
    Extract(n, 0xfff * 2, 0, n - 0xfff * 0x100000000000, 0x20000000000, 4);
    Extract(n, 0xfff * 8, 1, n - 0xfff1 * 0x10000000000, 0x10000000000, 2);
    Extract(n, 0xfff1, o, s * 0x400000000 + c * 0x40000000 + tail, 0x4000000000, 4);
    Extract(n, 0xfff1 * 4 + o, s, c * 0x40000000 + tail, 0x400000000, 16);
    Extract(n, head * 2, c, tail, 0x40000000, 8);
    Extract(n, head * 0x100 + c * 0x10, l, 0x1ffc, 0x2000, 0x2000);
    Extract(n, head * 0x200000 + c * 0x20000 + l, 0x7ff, 0, 4, 0x800);
    Extract(n, head * 0x100000000 + c * 0x10000000 + l * 0x800 + 0x7ff, 0, 0, 1, 4);
  }

  /** Reading the 56 bits of the header as ISO/IEC 14496-3 lays them out gives the configuration
      back, but for the top bit of the channel configuration, and the frame length. */
  lemma HeaderRoundTrip(cfg: AacConfig, size: nat)
    requires cfg.Valid() && size < 8192
    ensures var h := AdtsHeader(cfg, size);
            && Field(h, 0x100000000000, 0x1000) == 0xfff        // syncword
            && Field(h, 0x80000000000, 2) == 0                  // MPEG-4
            && Field(h, 0x20000000000, 4) == 0                  // layer
            && Field(h, 0x10000000000, 2) == 1                  // no CRC
            && Field(h, 0x4000000000, 4) == cfg.objtype - 1     // profile
            && Field(h, 0x400000000, 16) == cfg.srindex         // sampling frequency index
            && Field(h, 0x40000000, 8) == cfg.chconf % 8        // channel configuration
            && Field(h, 0x2000, 0x2000) == size                 // frame length
            && Field(h, 4, 0x800) == 0x7ff                      // variable bit rate
            && Field(h, 1, 4) == 0                              // one block
  {
    HeaderAsNumber(cfg, size);
    FieldsOfNumber(cfg.objtype - 1, cfg.srindex, cfg.chconf % 8, size);
  }

  /** The AudioSpecificConfig of section 1.6.2.1: five bits of object type, four of sampling
      frequency index, four of channel configuration, three more. */
  function SpecificConfig(objtype: nat, srindex: nat, chconf: nat, low: nat): seq<byte>
    requires objtype < 32 && srindex < 16 && chconf < 16 && low < 8
  {
    [objtype * 8 + srindex / 2, srindex % 2 * 128 + chconf * 8 + low]
  }

  lemma ConfigFields(objtype: nat, srindex: nat, chconf: nat, low: nat)
    requires objtype < 32 && srindex < 16 && chconf < 16 && low < 8
    ensures var b0, b1 := objtype * 8 + srindex / 2, srindex % 2 * 128 + chconf * 8 + low;
            && b0 / 8 == objtype
            && b0 * 2 % 16 + b1 / 128 == srindex
            && b1 / 8 % 16 == chconf
  {
  }

  /** Exactly the escape codes are refused; extended object types count as type 2. */
  lemma ParseReadsConfig(head: seq<byte>, objtype: nat, srindex: nat, chconf: nat, low: nat, tail: seq<byte>)
    requires |head| == 2 && objtype < 32 && srindex < 16 && chconf < 16 && low < 8
    ensures var r := ParseAacHeader(head + (SpecificConfig(objtype, srindex, chconf, low) + tail));
            if objtype == 0 || objtype == 31 || srindex == 15 then r == None
            else r == Some(AacConfig(if objtype > 4 then 2 else objtype, srindex, chconf))
  {
    var c := SpecificConfig(objtype, srindex, chconf, low);
    var s := head + (c + tail);
    assert s[2] == c[0] && s[3] == c[1];
    ConfigFields(objtype, srindex, chconf, low);
  }

  // ----- assembling frames -----

  /** What the codec module knows about the audio stream. */
  datatype AudioCodec = AudioCodec(isAac: bool, aacHeader: seq<seq<byte>>)

  datatype Message = Message(codec: Option<AudioCodec>, mlen: nat, isCodecHeader: bool, payload: seq<byte>)
  {
    predicate IsAudio() {
      && codec.Some? && mlen >= 2 && codec.value.isAac && codec.value.aacHeader != [] && !isCodecHeader
    }

    function FrameSize(): nat
      requires mlen >= 2
    {
      mlen - 2 + HEADER_SIZE
    }

    /** Messages that become a frame; the others change nothing. */
    predicate Accepted() {
      IsAudio() && FrameSize() <= BUFFER_SIZE
    }

    function Config(): Option<AacConfig>
      requires codec.Some?
    {
      ParseAacHeader(Concat(codec.value.aacHeader))
    }
  }

  /** An AAC frame that fits: 2043 bytes and the five in front of them fill the buffer. */
  predicate HasFrame(m: Message) {
    && m.codec.Some? && m.codec.value.isAac && m.codec.value.aacHeader != []
    && !m.isCodecHeader && 2 <= m.mlen <= 2043
  }

  /** The part of the message that fits behind the five bytes left free for the header. */
  function Stored(payload: seq<byte>): seq<byte> {
    if |payload| > BUFFER_SIZE - 5 then payload[..BUFFER_SIZE - 5] else payload
  }

  /** The buffer in front of a message: its first bytes are what an earlier message left there. */
  function HeadOf(m: Message, head: seq<byte>): (h: seq<byte>)
    requires m.Accepted() && |head| == 5
    ensures |h| == 5
  {
    if m.Config().None? then head else AdtsHeader(m.Config().value, m.FrameSize())[..5]
  }

  /** What the buffer holds behind a message: the header written over the first two bytes of it; if
      the AAC header could not be parsed, the message behind whatever the buffer held. */
  function Framed(config: Option<AacConfig>, size: nat, head: seq<byte>, stored: seq<byte>): (f: seq<byte>)
    requires config.Some? ==> config.value.Valid()
    ensures |head| == 5 ==> |f| == 5 + |stored|
  {
    if config.None? then head + stored
    else
      var header := AdtsHeader(config.value, size);
      if |stored| >= 2 then header + stored[2..] else header[..5 + |stored|]
  }

  /** The frame the decoder gets for a message. */
  function FrameOf(m: Message, head: seq<byte>): (f: seq<byte>)
    requires m.Accepted() && |head| == 5
    ensures |f| == 5 + |Stored(m.payload)|
  {
    Framed(m.Config(), m.FrameSize(), head, Stored(m.payload))
  }

  /** Frames handed to the decoder, the one waiting in the buffer (empty if there is none), and the
      first five bytes of the buffer. */
  datatype Assembly = Assembly(decoded: seq<seq<byte>>, pending: seq<byte>, head: seq<byte>)

  function FlushPending(a: Assembly): Assembly {
    if a.pending == [] then a else a.(decoded := a.decoded + [a.pending], pending := [])
  }

  function Receive(a: Assembly, m: Message): (r: Assembly)
    requires |a.head| == 5
    ensures |r.head| == 5
  {
    if m.Accepted() then Assembly(FlushPending(a).decoded, FrameOf(m, a.head), HeadOf(m, a.head)) else a
  }

  /** `initial` is what the allocated buffer starts with. */
  function ReceiveAll(messages: seq<Message>, initial: seq<byte>): (r: Assembly)
    requires |initial| == 5
    ensures |r.head| == 5
  {
    if messages == [] then Assembly([], [], initial)
    else
      var n := |messages| - 1;
      Receive(ReceiveAll(messages[..n], initial), messages[n])
  }

  /** The first five bytes of the last frame. */
  function LastHead(frames: seq<seq<byte>>, initial: seq<byte>): (h: seq<byte>)
    requires |initial| == 5 && forall i :: 0 <= i < |frames| ==> |frames[i]| >= 5
    ensures |h| == 5
  {
    if frames == [] then initial else frames[|frames| - 1][..5]
  }

  /** The frames of the messages that have one, in order of arrival, each given the first five bytes
      of the frame before it. */
  function Frames(messages: seq<Message>, initial: seq<byte>): (frames: seq<seq<byte>>)
    requires |initial| == 5
    ensures forall i :: 0 <= i < |frames| ==> |frames[i]| >= 5
  {
    if messages == [] then []
    else
      var n := |messages| - 1;
      var before := Frames(messages[..n], initial);
      before + (if HasFrame(messages[n]) then [FrameOf(messages[n], LastHead(before, initial))] else [])
  }

  /** With an AAC header that can be parsed, a frame is the ADTS header and the message from its
      third byte on as far as it fits (of an empty or one-byte message only the front of the header
      is there). It announces its own length if and only if the chain holds the announced number of
      bytes (or more than fit, when that is the largest number accepted). */
  lemma FrameIsComplete(m: Message, head: seq<byte>)
    requires HasFrame(m) && m.Config().Some? && |head| == 5
    ensures var f, fits := FrameOf(m, head), if |m.payload| < 2043 then |m.payload| else 2043;
            var header := AdtsHeader(m.Config().value, m.mlen + 5);
            && f == (if fits < 2 then header[..5 + fits] else header + m.payload[2..fits])
            && (|f| >= 7 && Field(f[..7], 0x2000, 0x2000) == |f|
                <==> |m.payload| == m.mlen || (m.mlen == 2043 && |m.payload| > 2043))
  {
    var header, stored := AdtsHeader(m.Config().value, m.FrameSize()), Stored(m.payload);
    HeaderRoundTrip(m.Config().value, m.FrameSize());
    assert |stored| >= 2 ==> (header + stored[2..])[..HEADER_SIZE] == header;
  }

  /** Without one the message as far as it fits stands behind what was in front of it. */
  lemma FrameWithoutHeader(m: Message, head: seq<byte>)
    requires HasFrame(m) && m.Config().None? && |head| == 5
    ensures FrameOf(m, head) == head + (if |m.payload| < 2043 then m.payload else m.payload[..2043])
  {
    assert m.payload[..|m.payload|] == m.payload;
  }

  /** All frames but the last have been decoded, and the last one is waiting, its first bytes in
      front of the buffer. */
  predicate OneBehind(a: Assembly, frames: seq<seq<byte>>, initial: seq<byte>) {
    if frames == [] then a == Assembly([], [], initial)
    else
      && a.decoded + [a.pending] == frames && |a.pending| >= 5
      && a.head == a.pending[..5]
  }

  lemma HeadIsFront(m: Message, head: seq<byte>)
    requires m.Accepted() && |head| == 5
    ensures HeadOf(m, head) == FrameOf(m, head)[..5]
  {
  }

  /** A message with a frame puts that frame behind the others; any other message changes nothing. */
  lemma StaysOneBehind(a: Assembly, m: Message, frames: seq<seq<byte>>, initial: seq<byte>)
    requires |a.head| == 5 && OneBehind(a, frames, initial)
    ensures if HasFrame(m) then OneBehind(Receive(a, m), frames + [FrameOf(m, a.head)], initial)
            else Receive(a, m) == a
  {
    if HasFrame(m) {
      HeadIsFront(m, a.head);
      EmptyFront([FrameOf(m, a.head)]);
    }
  }

  /** Over any run, malformed messages included, the decoder gets exactly the frames of the messages
      that have one, one each, in order, and one message behind. */
  lemma {:induction false} DecoderGetsEveryFrame(messages: seq<Message>, initial: seq<byte>)
    requires |initial| == 5
    ensures OneBehind(ReceiveAll(messages, initial), Frames(messages, initial), initial)
  {
    if messages == [] {
    } else {
      var n := |messages| - 1;
      DecoderGetsEveryFrame(messages[..n], initial);
      var a, frames := ReceiveAll(messages[..n], initial), Frames(messages[..n], initial);
      StaysOneBehind(a, messages[n], frames, initial);
      AppendNothing(frames);
      assert frames != [] ==> frames[|frames| - 1] == a.pending;
    }
  }

  lemma StoredPiece(got: seq<byte>, link: seq<byte>, rest: seq<byte>, n: nat)
    requires |got| <= BUFFER_SIZE - 5 && n <= |link|
    requires n == if |got| + |link| > BUFFER_SIZE - 5 then BUFFER_SIZE - 5 - |got| else |link|
    ensures Stored(got + (link + rest)) == Stored((got + link[..n]) + rest)
  {
    Assoc(got, link, rest);
  }

  method ReadAacHeader(header: seq<seq<byte>>) returns (r: Option<AacConfig>)
    requires header != []
    ensures r == ParseAacHeader(Concat(header))
  {
    var cursor := new Cursor(header);
    var ok := Skip(cursor, 2);
    if !ok {
      return None;
    }
    var b0, b1;
    ok, b0 := ReadLocal(cursor, 1);
    if !ok {
      return None;
    }
    ok, b1 := ReadLocal(cursor, 1);
    if !ok {
      return None;
    }
    var first: nat, second: nat := b0[0], b1[0];
    var objtype := first / 8;
    if objtype == 0 || objtype == 0x1f {
      return None;
    }
    if objtype > 4 {
      objtype := 2;
    }
    var srindex := (first * 2) % 16 + second / 128;
    if srindex == 15 {
      return None;
    }
    return Some(AacConfig(objtype, srindex, (second / 8) % 16));
  }

  class AudioSender {
    var data: array?<byte>   // allocated for the first message
    var pos: nat
    var last: nat
    var decoded: seq<seq<byte>>  // what decode_acc_audio has been called with
    const initial: seq<byte>     // what the memory of the buffer starts with

    ghost predicate Valid()
      reads this, data
    {
      |initial| == 5 &&
      if data == null then pos == last == 0 else data.Length == BUFFER_SIZE && pos == 0 && last <= BUFFER_SIZE
    }

    ghost function Pending(): seq<byte>
      requires Valid()
      reads this, data
    {
      if data == null then [] else data[..last]
    }

    ghost function State(): (a: Assembly)
      requires Valid()
      reads this, data
      ensures |a.head| == 5
    {
      Assembly(decoded, Pending(), if data == null then initial else data[..5])
    }

    constructor (memory: seq<byte>)
      requires |memory| == 5
      ensures Valid() && State() == Assembly([], [], memory)
    {
      initial := memory;
      data := null;
      pos, last := 0, 0;
      decoded := [];
    }

    /** The buffer is allocated for the first message. */
    method AllocateBuffer()
      requires Valid()
      modifies this`data
      ensures Valid() && data != null && (data == old(data) || fresh(data))
      ensures State() == old(State())
    {
      if data == null {
        data := new byte[BUFFER_SIZE](i => if 0 <= i < 5 then initial[i] else 0);
      }
    }

    method FlushAudio()
      requires Valid()
      modifies this
      ensures Valid() && last == 0 && data == old(data)
      ensures State() == FlushPending(old(State()))
    {
      if data == null || pos == last {
        return;
      }
      decoded := decoded + [data[pos..last]];
      pos, last := 0, 0;
    }

    method Append(piece: seq<byte>)
      requires Valid() && data != null && 5 <= last && last + |piece| <= BUFFER_SIZE
      modifies this`last, data
      ensures Valid() && last == old(last) + |piece|
      ensures data[5..last] == old(data[5..last]) + piece && data[..5] == old(data[..5])
    {
      forall i | 0 <= i < |piece| {
        data[last + i] := piece[i];
      }
      last := last + |piece|;
    }

    /** Copies the message behind the write pointer, as far as it fits. */
    method CopyPayload(chain: seq<seq<byte>>)
      requires Valid() && data != null && last == 5
      modifies this`last, data
      ensures Valid() && last == 5 + |Stored(Concat(chain))|
      ensures data[5..last] == Stored(Concat(chain)) && data[..5] == old(data[..5])
    {
      var links := chain;
      assert [] + Concat(chain) == Concat(chain);
      while links != [] && last < BUFFER_SIZE
        invariant 5 <= last <= BUFFER_SIZE && Valid() && data[..5] == old(data[..5])
        invariant Stored(Concat(chain)) == Stored(data[5..last] + Concat(links))
        decreases |links|
      {
        var bsize := |links[0]|;
        if last + bsize > BUFFER_SIZE {
          bsize := BUFFER_SIZE - last;
        }
        StoredPiece(data[5..last], links[0], Concat(links[1..]), bsize);
        Append(links[0][..bsize]);
        links := links[1..];
      }
      AppendNothing(data[5..last]);
      assert last == BUFFER_SIZE ==> Stored(data[5..last] + Concat(links)) == data[5..last];
    }

    method WriteHeader(header: seq<byte>)
      requires Valid() && data != null && |header| == HEADER_SIZE && last >= 5
      modifies data
      ensures Valid()
      ensures data[..last] == if last >= HEADER_SIZE then header + old(data[HEADER_SIZE..last]) else header[..last]
      ensures data[..5] == header[..5]
    {
      data[0] := header[0];
      data[1] := header[1];
      data[2] := header[2];
      data[3] := header[3];
      data[4] := header[4];
      data[5] := header[5];
      data[6] := header[6];
    }

    /** The message is put behind five free bytes, the header over them and its first two bytes. */
    method StoreFrame(aacHeader: seq<seq<byte>>, size: nat, chain: seq<seq<byte>>)
      requires Valid() && data != null && pos == last && aacHeader != []
      modifies this`last, data
      ensures Valid()
      ensures var config, head, stored := ParseAacHeader(Concat(aacHeader)), old(data[..5]), Stored(Concat(chain));
              && Pending() == Framed(config, size, head, stored)
              && data[..5] == if config.None? then head else AdtsHeader(config.value, size)[..5]
    {
      var p := last;
      last := last + 5;
      CopyPayload(chain);
      var config := ReadAacHeader(aacHeader);
      assert data[..last] == data[..5] + data[5..last];
      if config.None? {
        return;
      }
      WriteHeader(AdtsHeader(config.value, size));
      if p != 0 {
        assert false;
      }
    }

    /** An audio message: the frame waiting in the buffer goes to the decoder, the message takes
        its place. */
    method SendAudio(codec: Option<AudioCodec>, mlen: nat, isCodecHeader: bool, chain: seq<seq<byte>>)
      requires Valid()
      modifies this, data
      ensures Valid()
      ensures State() == Receive(old(State()), Message(codec, mlen, isCodecHeader, Concat(chain)))
      ensures !HasFrame(Message(codec, mlen, isCodecHeader, Concat(chain))) ==> State() == old(State())
    {
      if codec.None? || mlen < 2 {
        return;
      }
      if !codec.value.isAac || codec.value.aacHeader == [] || isCodecHeader {
        return;
      }
      AllocateBuffer();
      var size := mlen - 2 + HEADER_SIZE;
      if size > BUFFER_SIZE {
        return;
      }
      if last > pos {
        FlushAudio();
      }
      if last + size > BUFFER_SIZE {
        assert false;
      }
      if last + HEADER_SIZE > BUFFER_SIZE {
        assert false;
      }
      StoreFrame(codec.value.aacHeader, size, chain);
    }
  }
}
