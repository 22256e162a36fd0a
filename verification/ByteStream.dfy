/** The byte stream of Annex B of ITU-T H.264: how a receiver splits it into NAL units, how the
    gateway frames them, and exactly when the one undoes the other. */
module ByteStream {
  import opened Bytes

  /** A NAL unit as the gateway writes it: an inserted one (access-unit delimiter or parameter
      set) always has the four-byte start code, a copied one has three bytes. */
  datatype Unit = Inserted(body: seq<byte>) | Copied(body: seq<byte>)

  function Lead(u: Unit, first: bool): seq<byte> {
    if u.Inserted? || first then [0] else []
  }

  /** What a unit adds to the output written so far; the first start code of the output is
      always the long one. */
  function Frame(out: seq<byte>, u: Unit): seq<byte> {
    Lead(u, out == []) + ([0, 0, 1] + u.body)
  }

  function RenderFrom(out: seq<byte>, units: seq<Unit>): seq<byte>
    decreases |units|
  {
    if units == [] then out else RenderFrom(out + Frame(out, units[0]), units[1..])
  }

  function Bodies(units: seq<Unit>): (r: seq<seq<byte>>)
    ensures |r| == |units|
    ensures forall i :: 0 <= i < |units| ==> r[i] == units[i].body
  {
    if units == [] then [] else [units[0].body] + Bodies(units[1..])
  }

  function AsInserted(bodies: seq<seq<byte>>): (units: seq<Unit>)
    ensures |units| == |bodies|
    ensures forall i :: 0 <= i < |bodies| ==> units[i] == Inserted(bodies[i])
  {
    if bodies == [] then [] else [Inserted(bodies[0])] + AsInserted(bodies[1..])
  }

  lemma {:induction false} RenderAppend(out: seq<byte>, a: seq<Unit>, b: seq<Unit>)
    ensures RenderFrom(out, a + b) == RenderFrom(RenderFrom(out, a), b)
    decreases |a|
  {
    if a == [] {
      assert a + b == b;
    } else {
      assert (a + b)[1..] == a[1..] + b;
      RenderAppend(out + Frame(out, a[0]), a[1..], b);
    }
  }

  lemma {:induction false} RenderGrows(out: seq<byte>, units: seq<Unit>)
    ensures |RenderFrom(out, units)| >= |out| + 3 * |units|
    decreases |units|
  {
    if units == [] {
    } else {
      RenderGrows(out + Frame(out, units[0]), units[1..]);
    }
  }

  lemma AsInsertedAppend(a: seq<seq<byte>>, b: seq<seq<byte>>)
    ensures AsInserted(a + b) == AsInserted(a) + AsInserted(b)
  {
  }

  lemma InsertedFrame(out: seq<byte>, nal: seq<byte>)
    ensures out + Frame(out, Inserted(nal)) == (out + [0, 0, 0, 1]) + nal
  {
    assert Frame(out, Inserted(nal)) == [0, 0, 0, 1] + nal;
    Assoc(out, [0, 0, 0, 1], nal);
  }

  // ----- the receiver -----

  predicate Zeros(s: seq<byte>, i: int) {
    0 <= i && i + 3 <= |s| && s[i] == 0 && s[i + 1] == 0 && s[i + 2] == 0
  }

  predicate StartCode(s: seq<byte>, i: int) {
    0 <= i && i + 3 <= |s| && s[i] == 0 && s[i + 1] == 0 && s[i + 2] == 1
  }

  /** A NAL unit ends where three zero bytes or a start code begin (section B.2). */
  predicate Stops(s: seq<byte>, i: int) {
    Zeros(s, i) || StartCode(s, i)
  }

  function UnitLengthFrom(s: seq<byte>, k: nat): (n: nat)
    requires k <= |s|
    ensures k <= n <= |s|
    ensures forall i :: k <= i < n ==> !Stops(s, i)
    ensures n < |s| ==> Stops(s, n)
    decreases |s| - k
  {
    if k == |s| || Stops(s, k) then k else UnitLengthFrom(s, k + 1)
  }

  /** The number of bytes of the NAL unit at the start of s. */
  function UnitLength(s: seq<byte>): (n: nat)
    ensures n <= |s|
    ensures forall i :: 0 <= i < n ==> !Stops(s, i)
    ensures n < |s| ==> Stops(s, n)
  {
    UnitLengthFrom(s, 0)
  }

  /** The units a receiver finds: skip to a start code, take a unit, go on behind it. */
  function Scan(s: seq<byte>): seq<seq<byte>>
    decreases |s|
  {
    if |s| < 3 then []
    else if StartCode(s, 0) then
      var t := s[3..];
      var n := UnitLength(t);
      [t[..n]] + Scan(t[n..])
    else Scan(s[1..])
  }

  // ----- when scanning undoes framing -----

  predicate Uninterrupted(body: seq<byte>) {
    forall i :: 0 <= i < |body| ==> !Stops(body, i)
  }

  /** The condition of section 7.4.1 of H.264; for the last unit of the stream a trailing zero
      byte does no harm. */
  predicate Clean(body: seq<byte>, last: bool) {
    Uninterrupted(body) && (body == [] || last || body[|body| - 1] != 0)
  }

  predicate AllClean(units: seq<Unit>) {
    forall i :: 0 <= i < |units| ==> Clean(units[i].body, i == |units| - 1)
  }

  /** The stream in one piece: the first unit in front of the rest. */
  function Stream(units: seq<Unit>, first: bool): seq<byte> {
    if units == [] then []
    else Lead(units[0], first) + ([0, 0, 1] + (units[0].body + Stream(units[1..], false)))
  }

  lemma {:induction false} RenderIsStream(out: seq<byte>, units: seq<Unit>)
    ensures RenderFrom(out, units) == out + Stream(units, out == [])
    decreases |units|
  {
    if units == [] {
    } else {
      var u := units[0];
      RenderIsStream(out + Frame(out, u), units[1..]);
      var rest := Stream(units[1..], false);
      Assoc(out, Frame(out, u), rest);
      Assoc(Lead(u, out == []), [0, 0, 1] + u.body, rest);
      Assoc([0, 0, 1], u.body, rest);
    }
  }

  /** Behind a body that no unit boundary interrupts, the next unit's start code (or the end of
      the stream) is what stops the scan, exactly when the body does not end in a zero byte. */
  lemma UnitEnds(body: seq<byte>, rest: seq<Unit>)
    ensures UnitLength(body + Stream(rest, false)) == |body| <==> Clean(body, rest == [])
  {
    var tail := Stream(rest, false);
    var s := body + tail;
    assert rest != [] ==> |tail| >= 3 && Stops(tail, 0) && tail[0] == 0 && tail[1] == 0;
    assert forall i :: Stops(body, i) ==> Stops(s, i);
    assert rest != [] ==> Stops(s, |body|) by {
      if rest != [] {
        assert s[|body|..] == tail;
        assert s[|body|] == tail[0] && s[|body| + 1] == tail[1] && s[|body| + 2] == tail[2];
      }
    }
    if Clean(body, rest == []) {
      forall i | 0 <= i < |body|
        ensures !Stops(s, i)
      {
        if i + 3 <= |body| {
          assert !Stops(body, i);
        } else if rest != [] {
          assert s[|body| - 1] != 0;
        }
      }
    } else if rest != [] && Uninterrupted(body) {
      var k := |body| - 1;
      assert s[k] == 0 && s[k + 1] == tail[0] && s[k + 2] == tail[1];
      assert Stops(s, k);
    }
  }

  /** One step of the receiver: a start code, long or short, and the unit behind it. */
  lemma ScanFront(u: Unit, first: bool, t: seq<byte>)
    ensures Scan(Lead(u, first) + ([0, 0, 1] + t)) == [t[..UnitLength(t)]] + Scan(t[UnitLength(t)..])
  {
    var s := [0, 0, 1] + t;
    assert StartCode(s, 0);
    DropFront([0, 0, 1], t);
    if u.Inserted? || first {
      assert !StartCode([0] + s, 0);
      DropFront([0], s);
    } else {
      assert [] + s == s;
    }
  }

  lemma AllCleanFront(units: seq<Unit>)
    requires units != []
    ensures AllClean(units) <==> Clean(units[0].body, units[1..] == []) && AllClean(units[1..])
  {
    var rest := units[1..];
    assert forall i :: 1 <= i < |units| ==> units[i] == rest[i - 1];
    if AllClean(units) {
      forall i | 0 <= i < |rest|
        ensures Clean(rest[i].body, i == |rest| - 1)
      {
        assert Clean(units[i + 1].body, i + 1 == |units| - 1);
      }
    }
  }

  lemma SameSplit<T>(a: T, s: seq<T>, b: T, t: seq<T>)
    ensures [a] + s == [b] + t <==> a == b && s == t
  {
    if [a] + s == [b] + t {
      assert ([a] + s)[0] == a && ([b] + t)[0] == b;
      assert ([a] + s)[1..] == s && ([b] + t)[1..] == t;
    }
  }

  /** Scanning the framed units gives the units back if and only if every one of them is clean. */
  lemma {:induction false} ScanUndoesFraming(units: seq<Unit>, first: bool)
    ensures Scan(Stream(units, first)) == Bodies(units) <==> AllClean(units)
  {
    if units == [] {
    } else {
      var body, rest := units[0].body, units[1..];
      var t := body + Stream(rest, false);
      var n := UnitLength(t);
      ScanFront(units[0], first, t);
      UnitEnds(body, rest);
      ScanUndoesFraming(rest, false);
      AllCleanFront(units);
      SameSplit(t[..n], Scan(t[n..]), body, Bodies(rest));
      if n == |body| {
        DropFront(body, Stream(rest, false));
      } else {
        assert |t[..n]| == n;
      }
    }
  }

  function Sum(units: seq<Unit>): nat {
    if units == [] then 0
    else (if units[0].Inserted? then 4 else 3) + |units[0].body| + Sum(units[1..])
  }

  /** The exact number of bytes of the output. */
  lemma {:induction false} StreamLength(units: seq<Unit>, first: bool)
    ensures |Stream(units, first)| == Sum(units) + (if first && units != [] && units[0].Copied? then 1 else 0)
  {
    if units == [] {
    } else {
      StreamLength(units[1..], false);
    }
  }
}
