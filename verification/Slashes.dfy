/** The in-place rewriting of "%2F" to "/" in the app id. */
module Slashes {
  import opened Bytes
  import opened Strings

  const ESCAPE: string := "%2F"
  const PARAM_MAX_LEN := 1024

  /** One simultaneous replacement from left to right. */
  function Decode(s: string): string {
    if s == [] then []
    else if At(s, ESCAPE, 0) then "/" + Decode(s[3..])
    else [s[0]] + Decode(s[1..])
  }

  /** The text with every slash escaped. */
  function Encode(s: string): string {
    if s == [] then []
    else (if s[0] == '/' then ESCAPE else [s[0]]) + Encode(s[1..])
  }

  /** One pass of the loop: the leftmost escape becomes a slash. */
  function ReplaceAt(s: string, i: nat): (r: string)
    requires At(s, ESCAPE, i)
    ensures |r| == |s| - 2
  {
    s[..i] + "/" + s[i + 3..]
  }

  /** An escape at the front, spelled out. */
  lemma FrontEscape(s: string)
    ensures At(s, ESCAPE, 0) <==> |s| >= 3 && s[0] == '%' && s[1] == '2' && s[2] == 'F'
  {
    if |s| >= 3 && s[0] == '%' && s[1] == '2' && s[2] == 'F' {
      assert s[0..3] == ESCAPE;
    } else if |s| >= 3 {
      assert s[0..3][0] == s[0] && s[0..3][1] == s[1] && s[0..3][2] == s[2];
    }
  }

  lemma EscapeInTail(s: string, i: nat)
    requires 0 < |s|
    ensures At(s[1..], ESCAPE, i) <==> At(s, ESCAPE, i + 1)
  {
    if i + 4 <= |s| {
      assert s[1..][i..i + 3] == s[i + 1..i + 4];
    }
  }

  /** A replacement further behind leaves the front as it is. */
  lemma ReplacedInTail(s: string, i: nat)
    requires i > 0 && At(s, ESCAPE, i) && At(s[1..], ESCAPE, i - 1)
    ensures var r := ReplaceAt(s, i);
            r != [] && r[0] == s[0] && r[1..] == ReplaceAt(s[1..], i - 1)
  {
    var t := s[1..];
    assert s[..i] == [s[0]] + t[..i - 1] && s[i + 3..] == t[i - 1 + 3..];
    assert ReplaceAt(s, i) == [s[0]] + ReplaceAt(t, i - 1);
  }

  lemma ReplacedChars(s: string, i: nat)
    requires At(s, ESCAPE, i)
    ensures var r := ReplaceAt(s, i);
            |r| > i && r[i] == '/' && forall j :: 0 <= j < i ==> r[j] == s[j]
  {
  }

  /** It makes no escape of the front either. */
  lemma ReplacedBehindFront(s: string, i: nat)
    requires i > 0 && At(s, ESCAPE, i) && !At(s, ESCAPE, 0)
    ensures !At(ReplaceAt(s, i), ESCAPE, 0)
  {
    FrontEscape(s);
    FrontEscape(ReplaceAt(s, i));
    ReplacedChars(s, i);
  }

  /** The first characters of the decoded text. */
  lemma DecodedFront(s: string)
    ensures s == [] ==> Decode(s) == []
    ensures s != [] && At(s, ESCAPE, 0) ==> Decode(s)[0] == '/' && Decode(s)[1..] == Decode(s[3..])
    ensures s != [] && !At(s, ESCAPE, 0) ==> Decode(s)[0] == s[0] && Decode(s)[1..] == Decode(s[1..])
  {
  }

  /** Replacing the leftmost escape first makes no difference: the new slash takes part in no match. */
  lemma {:induction false} ReplaceThenDecode(s: string, i: nat)
    requires At(s, ESCAPE, i) && forall j :: 0 <= j < i ==> !At(s, ESCAPE, j)
    ensures Decode(ReplaceAt(s, i)) == Decode(s)
    decreases |s|
  {
    var r := ReplaceAt(s, i);
    if i == 0 {
      FrontEscape(r);
      assert r == "/" + s[3..];
      assert r[1..] == s[3..];
    } else {
      EscapeInTail(s, i - 1);
      forall j | 0 <= j < i - 1
        ensures !At(s[1..], ESCAPE, j)
      {
        EscapeInTail(s, j);
      }
      assert !At(s, ESCAPE, 0);
      ReplaceThenDecode(s[1..], i - 1);
      ReplacedInTail(s, i);
      ReplacedBehindFront(s, i);
      DecodedFront(s);
      DecodedFront(r);
      assert Decode(r) == [r[0]] + Decode(r[1..]);
    }
  }

  lemma TailHasNone(s: string)
    requires s != [] && !Contains(s, ESCAPE)
    ensures !Contains(s[1..], ESCAPE)
  {
    if Contains(s[1..], ESCAPE) {
      var i :| 0 <= i <= |s[1..]| && At(s[1..], ESCAPE, i);
      EscapeInTail(s, i);
    }
  }

  lemma {:induction false} NothingToDecode(s: string)
    requires !Contains(s, ESCAPE)
    ensures Decode(s) == s
  {
    if s == [] {
    } else {
      assert !At(s, ESCAPE, 0);
      TailHasNone(s);
      NothingToDecode(s[1..]);
    }
  }

  /** No escape is left. */
  lemma {:induction false} DecodedHasNone(s: string)
    ensures !Contains(Decode(s), ESCAPE)
    decreases |s|
  {
    var d := Decode(s);
    if s == [] {
    } else {
      DecodedFront(s);
      var t := if At(s, ESCAPE, 0) then s[3..] else s[1..];
      DecodedHasNone(t);
      FrontEscape(d);
      assert !At(d, ESCAPE, 0) by {
        if At(d, ESCAPE, 0) {
          FrontEscape(s);
          DecodedFront(s[1..]);
          FrontEscape(s[1..]);
          DecodedFront(s[1..][1..]);
        }
      }
      forall i | 0 < i <= |d|
        ensures !At(d, ESCAPE, i)
      {
        EscapeInTail(d, i - 1);
      }
    }
  }

  lemma EncodedFront(s: string)
    ensures s == [] ==> Encode(s) == []
    ensures s != [] && s[0] != '/' ==> Encode(s)[0] == s[0] && Encode(s)[1..] == Encode(s[1..])
    ensures s != [] && s[0] == '/' ==> At(Encode(s), ESCAPE, 0) && Encode(s)[3..] == Encode(s[1..])
                                       && Encode(s)[0] == '%'
  {
  }

  lemma {:induction false} DecodeEncoded(s: string)
    requires !Contains(s, ESCAPE)
    ensures Decode(Encode(s)) == s
    decreases |s|
  {
    if s == [] {
    } else {
      TailHasNone(s);
      DecodeEncoded(s[1..]);
      var e := Encode(s);
      EncodedFront(s);
      DecodedFront(e);
      if s[0] != '/' {
        assert !At(e, ESCAPE, 0) by {
          if At(e, ESCAPE, 0) {
            FrontEscape(e);
            EncodedFront(s[1..]);
            EncodedFront(s[1..][1..]);
            assert s[0] == '%' && s[1] == '2' && s[2] == 'F';
            FrontEscape(s);
            assert Contains(s, ESCAPE);
          }
        }
      }
    }
  }

  /** Decoding undoes encoding exactly on the texts that did not contain the escape themselves. */
  lemma {:induction false} DecodeUndoesEncode(s: string)
    ensures Decode(Encode(s)) == s <==> !Contains(s, ESCAPE)
  {
    if Contains(s, ESCAPE) {
      DecodedHasNone(Encode(s));
    } else {
      DecodeEncoded(s);
    }
  }

  // ----- the code -----

  method TextLength(a: array<char>) returns (n: nat)
    requires exists k: nat :: IsText(a, k)
    ensures IsText(a, n)
  {
    n := 0;
    while a[n] != '\0'
      invariant n < a.Length
      invariant forall i :: 0 <= i < n ==> a[i] != '\0'
      decreases a.Length - n
    {
      n := n + 1;
    }
  }

  lemma ReplacedHasNoNull(s: string, i: nat)
    requires At(s, ESCAPE, i) && forall j :: 0 <= j < |s| ==> s[j] != '\0'
    ensures forall j :: 0 <= j < |ReplaceAt(s, i)| ==> ReplaceAt(s, i)[j] != '\0'
  {
  }

  lemma TextByChars(a: array<char>, text: string)
    requires |text| < a.Length && a[..|text|] == text && a[|text|] == '\0'
    requires forall i :: 0 <= i < |text| ==> text[i] != '\0'
    ensures IsText(a, |text|)
  {
    assert forall i :: 0 <= i < |text| ==> a[i] == a[..|text|][i];
  }

  /** The text with one escape replaced, spelled out in a new buffer. */
  method Spell(appid: array<char>, n: nat, before: nat) returns (temp: array<char>)
    requires IsText(appid, n) && At(appid[..n], ESCAPE, before)
    ensures fresh(temp) && temp.Length == appid.Length && IsText(temp, n - 2)
    ensures temp[..n - 2] == ReplaceAt(appid[..n], before)
  {
    temp := new char[appid.Length](_ => '\0');
    Move(appid, 0, temp, 0, before);
    temp[before] := '/';
    Move(appid, before + 3, temp, before + 1, n - before - 3);
    ghost var s := appid[..n];
    assert temp[..n - 2] == s[..before] + "/" + s[before + 3..];
    ReplacedHasNoNull(s, before);
    TextByChars(temp, ReplaceAt(s, before));
  }

  /** Copies a C string back into a cleared array. */
  method CopyText(from: array<char>, ghost length: nat, to: array<char>)
    requires from != to && from.Length == to.Length && IsText(from, length)
    modifies to
    ensures IsText(to, length)
    ensures to[..length] == from[..length]
  {
    var n := TextLength(from);
    forall i | 0 <= i < to.Length {
      to[i] := '\0';
    }
    forall i | 0 <= i < n {
      to[i] := from[i];
    }
  }

  /** One pass of the loop. */
  method ReplaceOnce(appid: array<char>, n: nat, before: nat)
    requires IsText(appid, n) && At(appid[..n], ESCAPE, before)
    modifies appid
    ensures IsText(appid, n - 2)
    ensures appid[..n - 2] == ReplaceAt(old(appid[..n]), before)
  {
    var temp := Spell(appid, n, before);
    CopyText(temp, n - 2, appid);
  }

  /** Rewrites the text in place, one escape per pass, through a temporary buffer. */
  method ReplaceForwardSlash(appid: array<char>, ghost length: nat) returns (n: nat)
    requires appid.Length == PARAM_MAX_LEN && IsText(appid, length)
    modifies appid
    ensures IsText(appid, n)
    ensures appid[..n] == Decode(old(appid[..length]))
    ensures !Contains(appid[..n], ESCAPE)
  {
    n := TextLength(appid);
    assert n == length;
    var start := Find(appid[..n], ESCAPE, 0);
    while start <= n
      invariant IsText(appid, n)
      invariant start == Find(appid[..n], ESCAPE, 0)
      invariant Decode(appid[..n]) == Decode(old(appid[..length]))
      decreases n
    {
      ReplaceThenDecode(appid[..n], start);
      ReplaceOnce(appid, n, start);
      n := TextLength(appid);
      start := Find(appid[..n], ESCAPE, 0);
    }
    NotFound(appid[..n], ESCAPE);
    NothingToDecode(appid[..n]);
  }
}
