/** Lists of NALs, each behind a big-endian length field of fixed width. */
module NalLists {
  import opened Bytes

  function EncodeNals(nals: seq<seq<byte>>, width: nat): seq<byte> {
    if nals == [] then []
    else ToBigEndian(|nals[0]|, width) + (nals[0] + EncodeNals(nals[1..], width))
  }

  predicate Fits(nals: seq<seq<byte>>, width: nat) {
    forall i :: 0 <= i < |nals| ==> |nals[i]| < Pow256(width)
  }

  lemma FitsWith(nal: seq<byte>, more: seq<seq<byte>>, width: nat)
    requires |nal| < Pow256(width) && Fits(more, width)
    ensures Fits([nal] + more, width)
  {
  }

  lemma EncodedWith(nal: seq<byte>, more: seq<seq<byte>>, width: nat)
    ensures EncodeNals([nal] + more, width) == ToBigEndian(|nal|, width) + (nal + EncodeNals(more, width))
  {
    assert ([nal] + more)[1..] == more;
  }

  lemma EncodedBefore(nal: seq<byte>, more: seq<seq<byte>>, width: nat, tail: seq<byte>)
    ensures EncodeNals([nal] + more, width) + tail ==
            ToBigEndian(|nal|, width) + (nal + (EncodeNals(more, width) + tail))
  {
    var len, rest := ToBigEndian(|nal|, width), EncodeNals(more, width);
    EncodedWith(nal, more, width);
    Assoc(len, nal + rest, tail);
    Assoc(nal, rest, tail);
  }

  lemma {:induction false} EncodedAppend(a: seq<seq<byte>>, b: seq<seq<byte>>, width: nat)
    ensures EncodeNals(a + b, width) == EncodeNals(a, width) + EncodeNals(b, width)
    decreases |a|
  {
    if a == [] {
      EmptyFront(b);
      EmptyFront(EncodeNals(b, width));
    } else {
      assert a == [a[0]] + a[1..] && a + b == [a[0]] + (a[1..] + b);
      EncodedAppend(a[1..], b, width);
      EncodedWith(a[0], a[1..] + b, width);
      EncodedBefore(a[0], a[1..], width, EncodeNals(b, width));
    }
  }

  /** Reading the front of a list of length-prefixed NALs. */
  lemma EncodedFront(nals: seq<seq<byte>>, width: nat, tail: seq<byte>)
    requires nals != [] && Fits(nals, width)
    ensures var s := EncodeNals(nals, width) + tail;
            && |s| >= width
            && BigEndian(s[..width]) == |nals[0]|
            && s[width..] == nals[0] + (EncodeNals(nals[1..], width) + tail)
  {
    BigEndianRoundTrip(|nals[0]|, width);
    assert nals == [nals[0]] + nals[1..];
    EncodedBefore(nals[0], nals[1..], width, tail);
    DropFront(ToBigEndian(|nals[0]|, width), nals[0] + (EncodeNals(nals[1..], width) + tail));
  }

  lemma SplitAt(s: seq<byte>, k: nat)
    requires k <= |s|
    ensures s == s[..k] + s[k..]
  {
  }

  lemma DropTwice(s: seq<byte>, j: nat, k: nat)
    requires j + k <= |s|
    ensures s[j..][k..] == s[j + k..]
  {
  }

  /** A message has one reading only. */
  lemma {:induction false} EncodingIsInjective(a: seq<seq<byte>>, b: seq<seq<byte>>, width: nat)
    requires 1 <= width && Fits(a, width) && Fits(b, width)
    requires EncodeNals(a, width) == EncodeNals(b, width)
    ensures a == b
    decreases |a|
  {
    if a == [] || b == [] {
    } else {
      var s := EncodeNals(a, width);
      EncodedFront(a, width, []);
      EncodedFront(b, width, []);
      AppendNothing(s);
      AppendNothing(EncodeNals(a[1..], width));
      AppendNothing(EncodeNals(b[1..], width));
      DropFront(a[0], EncodeNals(a[1..], width));
      DropFront(b[0], EncodeNals(b[1..], width));
      assert a[0] == b[0] && EncodeNals(a[1..], width) == EncodeNals(b[1..], width);
      EncodingIsInjective(a[1..], b[1..], width);
      assert a == [a[0]] + a[1..] && b == [b[0]] + b[1..];
    }
  }
}
