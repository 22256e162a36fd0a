/** Bytes, big-endian numbers and the concatenation of a list of byte strings. */
module Bytes {

  type byte = x: int | 0 <= x < 256

  function Concat(pieces: seq<seq<byte>>): seq<byte> {
    if pieces == [] then [] else pieces[0] + Concat(pieces[1..])
  }

  lemma Assoc<T>(a: seq<T>, b: seq<T>, c: seq<T>)
    ensures a + (b + c) == (a + b) + c
  {
  }

  lemma DropFront<T>(a: seq<T>, b: seq<T>)
    ensures (a + b)[|a|..] == b
    ensures (a + b)[..|a|] == a
  {
  }

  lemma EmptyFront<T>(a: seq<T>)
    ensures [] + a == a
  {
  }

  lemma AppendNothing<T>(a: seq<T>)
    ensures a + [] == a
  {
  }

  /** The largest value plus one that fits in `width` bytes. */
  function Pow256(width: nat): (p: nat)
    ensures p > 0
  {
    if width == 0 then 1 else 256 * Pow256(width - 1)
  }

  /** The number the source obtains by reversing the bytes into a little-endian integer. */
  function BigEndian(s: seq<byte>): nat {
    if s == [] then 0 else 256 * BigEndian(s[..|s| - 1]) + s[|s| - 1]
  }

  function ToBigEndian(value: nat, width: nat): (s: seq<byte>)
    ensures |s| == width
  {
    if width == 0 then [] else ToBigEndian(value / 256, width - 1) + [value % 256]
  }

  lemma {:induction false} BigEndianRoundTrip(value: nat, width: nat)
    requires value < Pow256(width)
    ensures BigEndian(ToBigEndian(value, width)) == value
  {
    if width == 0 {
    } else {
      BigEndianRoundTrip(value / 256, width - 1);
      var s := ToBigEndian(value, width);
      assert s[..|s| - 1] == ToBigEndian(value / 256, width - 1);
    }
  }

  lemma {:induction false} ToBigEndianRoundTrip(s: seq<byte>)
    ensures BigEndian(s) < Pow256(|s|)
    ensures ToBigEndian(BigEndian(s), |s|) == s
  {
    if s == [] {
    } else {
      var front := s[..|s| - 1];
      ToBigEndianRoundTrip(front);
      assert BigEndian(s) / 256 == BigEndian(front);
      assert BigEndian(s) % 256 == s[|s| - 1];
      assert s == front + [s[|s| - 1]];
    }
  }

  /** A block copy between two arrays. */
  method Move<T>(src: array<T>, from: nat, dst: array<T>, at: nat, n: nat)
    requires src != dst && from + n <= src.Length && at + n <= dst.Length
    modifies dst
    ensures dst[..at] == old(dst[..at])
    ensures dst[at..at + n] == src[from..from + n]
    ensures forall i :: at + n <= i < dst.Length ==> dst[i] == old(dst[i])
  {
    forall i | 0 <= i < n {
      dst[at + i] := src[from + i];
    }
    ghost var copy, original := dst[at..at + n], src[from..from + n];
    assert forall i :: 0 <= i < n ==> copy[i] == original[i];
  }
}
