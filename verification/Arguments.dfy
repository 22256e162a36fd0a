/** Reading key=value arguments off the stream name by substring search. */
module Arguments {
  import opened Wrappers
  import opened Bytes
  import opened Strings

  /** The keys the gateway asks for. */
  const KEYS: seq<string> :=
    ["appid", "channel", "abr", "uid", "enc", "dvbr", "dwidth", "dheight", "dfps", "dual", "jb"]

  // ----- the code -----

  /** The end of the argument that starts at position i: the next ampersand or the end. */
  function FindArgEnd(s: string, i: nat): (r: nat)
    requires i <= |s|
    ensures i <= r <= |s|
    ensures forall j :: i <= j < r ==> s[j] != '&'
    ensures r < |s| ==> s[r] == '&'
    decreases |s| - i
  {
    if i == |s| || s[i] == '&' then i else FindArgEnd(s, i + 1)
  }

  /** The character behind the key is skipped unseen; an empty value counts as a failure. */
  function ArgValue(args: string, key: string): Option<string> {
    var start := Find(args, key, 0);
    if start > |args| then None
    else
      var valueStart, valueEnd := start + |key| + 1, FindArgEnd(args, start);
      if valueEnd <= valueStart then None else Some(args[valueStart..valueEnd])
  }

  /** The copy stays inside an array of the given size. */
  predicate CopyFits(args: string, key: string, size: nat) {
    var r := ArgValue(args, key);
    r.Some? ==> |r.value| <= size
  }

  method GetArgValue(args: string, key: string, value: array<char>) returns (code: int)
    requires CopyFits(args, key, value.Length)
    modifies value
    ensures var r := ArgValue(args, key);
            if r.None? then code == -1 && value[..] == old(value[..])
            else code == 0 && |r.value| <= value.Length
                 && value[..] == r.value + old(value[|r.value|..])
  {
    var keyStart := Find(args, key, 0);
    if keyStart > |args| {
      return -1;
    }
    var valueStart := keyStart + |key| + 1;
    var valueEnd := FindArgEnd(args, keyStart);
    if valueEnd <= valueStart {
      return -1;
    }
    forall i | 0 <= i < valueEnd - valueStart {
      value[i] := args[valueStart + i];
    }
    return 0;
  }

  // ----- argument lists -----

  datatype Pair = Pair(key: string, value: string)
  {
    function Text(): string {
      key + ("=" + value)
    }
  }

  function Join(pairs: seq<Pair>): string {
    if pairs == [] then ""
    else if |pairs| == 1 then pairs[0].Text()
    else pairs[0].Text() + ("&" + Join(pairs[1..]))
  }

  /** Where the text of pair i starts. */
  function Offset(pairs: seq<Pair>, i: nat): nat
    requires i < |pairs|
  {
    if i == 0 then 0 else |pairs[0].Text()| + 1 + Offset(pairs[1..], i - 1)
  }

  predicate IsKey(key: string) {
    key != [] && '&' !in key && '=' !in key
  }

  /** Keys are made of neither separator, values may contain an equals sign. */
  predicate WellFormed(pairs: seq<Pair>) {
    forall i :: 0 <= i < |pairs| ==> IsKey(pairs[i].key) && '&' !in pairs[i].value
  }

  /** The key text stands in the key or in the value of the pair. */
  predicate Mentions(p: Pair, key: string) {
    Contains(p.key, key) || Contains(p.value, key)
  }

  lemma MatchedChars(s: string, key: string, x: int)
    requires At(s, key, x)
    ensures forall d :: x <= d < x + |key| ==> s[d] in key
  {
    assert forall d :: x <= d < x + |key| ==> s[d] == key[d - x];
  }

  /** No match crosses a separator. */
  lemma MatchInPart(a: string, sep: char, b: string, key: string, x: int)
    requires key != [] && sep !in key
    ensures At(a + ([sep] + b), key, x) <==> At(a, key, x) || (x > |a| && At(b, key, x - |a| - 1))
  {
    var s := a + ([sep] + b);
    assert s[|a|] == sep;
    if At(a, key, x) {
      assert s[x..x + |key|] == a[x..x + |key|];
    } else if x > |a| && At(b, key, x - |a| - 1) {
      assert s[x..x + |key|] == b[x - |a| - 1..][..|key|];
    }
    if At(s, key, x) {
      MatchedChars(s, key, x);
      if x + |key| <= |a| {
        assert s[x..x + |key|] == a[x..x + |key|];
      } else {
        assert s[x..x + |key|] == b[x - |a| - 1..x - |a| - 1 + |key|];
      }
    }
  }

  lemma MatchInText(p: Pair, key: string, x: int)
    requires IsKey(key)
    ensures At(p.Text(), key, x) <==> At(p.key, key, x) || (x > |p.key| && At(p.value, key, x - |p.key| - 1))
  {
    MatchInPart(p.key, '=', p.value, key, x);
  }

  lemma TextMentions(p: Pair, key: string)
    requires IsKey(key)
    ensures Contains(p.Text(), key) <==> Mentions(p, key)
  {
    if Contains(p.Text(), key) {
      var x :| 0 <= x <= |p.Text()| && At(p.Text(), key, x);
      MatchInText(p, key, x);
    }
    if Contains(p.key, key) {
      var x :| 0 <= x <= |p.key| && At(p.key, key, x);
      MatchInText(p, key, x);
    }
    if Contains(p.value, key) {
      var x :| 0 <= x <= |p.value| && At(p.value, key, x);
      MatchInText(p, key, x + |p.key| + 1);
    }
  }

  /** A list in front of, at and behind pair i. */
  lemma {:induction false} Around(pairs: seq<Pair>, i: nat) returns (front: string, back: string)
    requires i < |pairs|
    ensures Join(pairs) == front + (pairs[i].Text() + back) && |front| == Offset(pairs, i)
    ensures back != [] ==> back[0] == '&'
  {
    var text := pairs[0].Text();
    if i == 0 {
      front, back := "", if |pairs| == 1 then "" else "&" + Join(pairs[1..]);
      AppendNothing(text);
      EmptyFront(text + back);
    } else {
      var f;
      f, back := Around(pairs[1..], i - 1);
      front := text + ("&" + f);
      Assoc("&", f, pairs[i].Text() + back);
      Assoc(text, "&" + f, pairs[i].Text() + back);
    }
  }

  /** Searching a text with another one behind an ampersand. */
  lemma SearchBehind(text: string, rest: string, key: string)
    requires IsKey(key)
    ensures var s := text + ("&" + rest);
            if Contains(text, key) then Find(s, key, 0) <= |text|
            else Find(s, key, 0) == |text| + 1 + Find(rest, key, 0)
  {
    var s := text + ("&" + rest);
    forall x
      ensures At(s, key, x) <==> At(text, key, x) || (x > |text| && At(rest, key, x - |text| - 1))
    {
      MatchInPart(text, '&', rest, key, x);
    }
    if Contains(text, key) {
      var x :| 0 <= x <= |text| && At(text, key, x);
      assert At(s, key, x);
    } else {
      var r := |text| + 1 + Find(rest, key, 0);
      forall j | 0 <= j < r
        ensures !At(s, key, j)
      {
        assert j <= |text| ==> !At(text, key, j);
      }
      if r <= |s| {
        FindIs(s, key, r);
      } else {
        assert !Contains(s, key);
        NotFound(s, key);
      }
    }
  }

  /** The search finds the pair of the key exactly when no earlier pair mentions the key. */
  lemma {:induction false} SearchFindsPair(pairs: seq<Pair>, i: nat)
    requires WellFormed(pairs) && i < |pairs|
    ensures Find(Join(pairs), pairs[i].key, 0) == Offset(pairs, i)
       <==> forall j :: 0 <= j < i ==> !Mentions(pairs[j], pairs[i].key)
    decreases i
  {
    var key, s := pairs[i].key, Join(pairs);
    if i == 0 {
      var front, back := Around(pairs, 0);
      assert s[0..|key|] == key;
      FindIs(s, key, 0);
    } else {
      var text, rest := pairs[0].Text(), Join(pairs[1..]);
      assert pairs[1..][i - 1] == pairs[i];
      SearchFindsPair(pairs[1..], i - 1);
      TextMentions(pairs[0], key);
      SearchBehind(text, rest, key);
      if Mentions(pairs[0], key) {
        assert Find(s, key, 0) < |text| + 1;
      } else {
        assert forall j :: 0 <= j < i - 1 ==> pairs[1..][j] == pairs[j + 1];
        if j :| 0 <= j < i && Mentions(pairs[j], key) {
          assert pairs[1..][j - 1] == pairs[j];
        }
      }
    }
  }

  lemma {:induction false} SearchFails(pairs: seq<Pair>, key: string)
    requires WellFormed(pairs) && IsKey(key)
    requires forall j :: 0 <= j < |pairs| ==> !Mentions(pairs[j], key)
    ensures !Contains(Join(pairs), key)
  {
    if pairs == [] {
    } else {
      TextMentions(pairs[0], key);
      if |pairs| > 1 {
        SearchFails(pairs[1..], key);
        var text, rest := pairs[0].Text(), Join(pairs[1..]);
        SearchBehind(text, rest, key);
        NotFound(rest, key);
        NotFound(Join(pairs), key);
      }
    }
  }

  lemma ArgEndIs(s: string, i: nat, r: nat)
    requires i <= r <= |s| && (forall j :: i <= j < r ==> s[j] != '&') && (r < |s| ==> s[r] == '&')
    ensures FindArgEnd(s, i) == r
  {
  }

  /** An argument in the middle of a text: its end, and its part from character k on. */
  lemma ArgumentAt(s: string, front: string, text: string, back: string, k: nat)
    requires s == front + (text + back) && k <= |text|
    requires '&' !in text && (back != [] ==> back[0] == '&')
    ensures FindArgEnd(s, |front|) == |front| + |text|
    ensures s[|front| + k..|front| + |text|] == text[k..]
  {
    var end := |front| + |text|;
    forall j | |front| <= j < end
      ensures s[j] != '&'
    {
      assert s[j] == text[j - |front|];
    }
    assert end < |s| ==> s[end] == back[0];
    ArgEndIs(s, |front|, end);
  }

  lemma ArgValueIs(s: string, key: string, start: nat, value: string)
    requires start + |key| + 1 + |value| <= |s| && Find(s, key, 0) == start
    requires FindArgEnd(s, start) == start + |key| + 1 + |value|
    requires s[start + (|key| + 1)..start + |key| + 1 + |value|] == value
    ensures ArgValue(s, key) == if value == "" then None else Some(value)
  {
  }

  lemma TextParts(p: Pair)
    ensures |p.Text()| == |p.key| + 1 + |p.value| && p.Text()[|p.key| + 1..] == p.value
  {
  }

  lemma TextHasNoAmpersand(p: Pair)
    requires '&' !in p.key && '&' !in p.value
    ensures '&' !in p.Text()
  {
  }

  lemma ValueInText(s: string, front: string, p: Pair, back: string)
    requires s == front + (p.Text() + back) && (back != [] ==> back[0] == '&')
    requires '&' !in p.key && '&' !in p.value && Find(s, p.key, 0) == |front|
    ensures ArgValue(s, p.key) == if p.value == "" then None else Some(p.value)
  {
    TextHasNoAmpersand(p);
    TextParts(p);
    ArgumentAt(s, front, p.Text(), back, |p.key| + 1);
    ArgValueIs(s, p.key, |front|, p.value);
  }

  /** The value returned when the search finds pair i. */
  lemma ValueOfPair(pairs: seq<Pair>, i: nat)
    requires WellFormed(pairs) && i < |pairs|
    requires Find(Join(pairs), pairs[i].key, 0) == Offset(pairs, i)
    ensures ArgValue(Join(pairs), pairs[i].key) == if pairs[i].value == "" then None else Some(pairs[i].value)
  {
    var front, back := Around(pairs, i);
    ValueInText(Join(pairs), front, pairs[i], back);
  }

  // ----- the round trip -----

  /** Keys the gateway knows, no value mentioning any of them. */
  predicate UsesKnownKeys(pairs: seq<Pair>) {
    forall i :: 0 <= i < |pairs| ==>
      pairs[i].key in KEYS && '&' !in pairs[i].value && forall key :: key in KEYS ==> !Contains(pairs[i].value, key)
  }

  /** The two letters some key starts with; they identify the key. */
  predicate StartsKey(c: char, d: char) {
    || (c == 'a' && (d == 'p' || d == 'b'))
    || (c == 'd' && (d == 'v' || d == 'w' || d == 'h' || d == 'f' || d == 'u'))
    || (c == 'c' && d == 'h') || (c == 'u' && d == 'i') || (c == 'e' && d == 'n') || (c == 'j' && d == 'b')
  }

  lemma KeyLetters(key: string)
    requires key in KEYS
    ensures IsKey(key) && |key| >= 2 && StartsKey(key[0], key[1])
    ensures forall x :: 0 < x < |key| - 1 ==> !StartsKey(key[x], key[x + 1])
  {
    var i :| 0 <= i < |KEYS| && KEYS[i] == key;
    if i < 6 {
      assert i == 0 || i == 1 || i == 2 || i == 3 || i == 4 || i == 5;
    } else {
      assert i == 6 || i == 7 || i == 8 || i == 9 || i == 10;
    }
  }

  lemma FirstLettersIdentify(a: string, b: string)
    requires a in KEYS && b in KEYS && |a| >= 2 && |b| >= 2 && a[0] == b[0] && a[1] == b[1]
    ensures a == b
  {
  }

  /** No key is part of another one. */
  lemma KeysDoNotOverlap(a: string, b: string)
    requires a in KEYS && b in KEYS && Contains(a, b)
    ensures a == b
  {
    KeyLetters(a);
    KeyLetters(b);
    var x :| 0 <= x <= |a| && At(a, b, x);
    assert a[x] == a[x..x + |b|][0] && a[x + 1] == a[x..x + |b|][1];
    FirstLettersIdentify(a, b);
  }

  lemma KnownKeysAreWellFormed(pairs: seq<Pair>)
    requires UsesKnownKeys(pairs)
    ensures WellFormed(pairs)
  {
    forall i | 0 <= i < |pairs|
      ensures IsKey(pairs[i].key)
    {
      KeyLetters(pairs[i].key);
    }
  }

  lemma OtherPairsDoNotMention(p: Pair, key: string)
    requires UsesKnownKeys([p]) && key in KEYS && p.key != key
    ensures !Mentions(p, key)
  {
    assert [p][0] == p;
    if Contains(p.key, key) {
      KeysDoNotOverlap(p.key, key);
    }
  }

  /** The round trip over the keys of the gateway: the first pair with the key gives its value, or
      a failure if that is empty; without such a pair there is a failure. */
  lemma ArgumentRoundTrip(pairs: seq<Pair>, key: string)
    requires UsesKnownKeys(pairs) && key in KEYS
    ensures forall i :: 0 <= i < |pairs| && pairs[i].key == key && (forall j :: 0 <= j < i ==> pairs[j].key != key) ==>
              ArgValue(Join(pairs), key) == if pairs[i].value == "" then None else Some(pairs[i].value)
    ensures (forall j :: 0 <= j < |pairs| ==> pairs[j].key != key) ==> ArgValue(Join(pairs), key) == None
  {
    KnownKeysAreWellFormed(pairs);
    KeyLetters(key);
    forall j | 0 <= j < |pairs| && pairs[j].key != key
      ensures !Mentions(pairs[j], key)
    {
      OtherPairsDoNotMention(pairs[j], key);
    }
    forall i | 0 <= i < |pairs| && pairs[i].key == key && (forall j :: 0 <= j < i ==> pairs[j].key != key)
      ensures ArgValue(Join(pairs), key) == if pairs[i].value == "" then None else Some(pairs[i].value)
    {
      SearchFindsPair(pairs, i);
      ValueOfPair(pairs, i);
    }
    if forall j :: 0 <= j < |pairs| ==> pairs[j].key != key {
      SearchFails(pairs, key);
      NotFound(Join(pairs), key);
    }
  }

  /** When the array of the caller is large enough: the first pair with the key decides; other
      arguments may be as long as they like. */
  lemma CopyFitsExactlyWhen(pairs: seq<Pair>, key: string, i: nat, size: nat)
    requires UsesKnownKeys(pairs) && i < |pairs| && pairs[i].key == key
    requires forall j :: 0 <= j < i ==> pairs[j].key != key
    ensures CopyFits(Join(pairs), key, size) <==> |pairs[i].value| <= size
  {
    ArgumentRoundTrip(pairs, key);
  }

  /** Without the key nothing is copied. */
  lemma AbsentKeyCopiesNothing(pairs: seq<Pair>, key: string, size: nat)
    requires UsesKnownKeys(pairs) && key in KEYS && forall j :: 0 <= j < |pairs| ==> pairs[j].key != key
    ensures CopyFits(Join(pairs), key, size)
  {
    ArgumentRoundTrip(pairs, key);
  }

  lemma MatchStartsKey(value: string, key: string, x: int)
    requires key in KEYS && At(value, key, x)
    ensures x + 1 < |value| && StartsKey(value[x], value[x + 1])
  {
    KeyLetters(key);
    assert value[x] == value[x..x + |key|][0] && value[x + 1] == value[x..x + |key|][1];
  }

  lemma MentionsNoKey(value: string)
    requires forall x :: 0 <= x < |value| - 1 ==> !StartsKey(value[x], value[x + 1])
    ensures forall key :: key in KEYS ==> !Contains(value, key)
  {
    forall key, x | key in KEYS && 0 <= x <= |value|
      ensures !At(value, key, x)
    {
      if At(value, key, x) {
        MatchStartsKey(value, key, x);
      }
    }
  }

  /** The copy is inside the array and leaves a C string in it, when it ended in a null before. */
  predicate TextFits(args: string, key: string, size: nat) {
    var r := ArgValue(args, key);
    r.Some? ==> |r.value| < size
  }

  /** For arguments without nulls that is exactly so. */
  lemma TextFitsExactlyWhen(args: string, key: string, before: string)
    requires '\0' !in args && CopyFits(args, key, |before|) && ArgValue(args, key).Some?
    requires before != [] && before[|before| - 1] == '\0'
    ensures var value := ArgValue(args, key).value;
            (exists n: nat :: IsCString(value + before[|value|..], n)) <==> TextFits(args, key, |before|)
  {
    CopyLeavesText(ArgValue(args, key).value, before);
  }

  function EncArguments(app: string, enc: string): string {
    Join([Pair("appid", app), Pair("enc", enc)])
  }

  lemma EncValueIs(app: string, enc: string)
    requires '&' !in app && forall key :: key in KEYS ==> !Contains(app, key)
    requires enc != "" && '&' !in enc && forall x :: 0 <= x < |enc| - 1 ==> !StartsKey(enc[x], enc[x + 1])
    ensures ArgValue(EncArguments(app, enc), "enc") == Some(enc)
  {
    var pairs := [Pair("appid", app), Pair("enc", enc)];
    assert KEYS[0] == "appid" && KEYS[4] == "enc";
    MentionsNoKey(enc);
    assert pairs[1].key == "enc" && pairs[0].key != "enc";
    ArgumentRoundTrip(pairs, "enc");
  }

  /** The array for "enc" has two characters: "1" fits as a text, "10" without its null, and "true"
      not at all. */
  lemma EncryptionFlag(app: string)
    requires '&' !in app && forall key :: key in KEYS ==> !Contains(app, key)
    ensures TextFits(EncArguments(app, "1"), "enc", 2)
    ensures CopyFits(EncArguments(app, "10"), "enc", 2) && !TextFits(EncArguments(app, "10"), "enc", 2)
    ensures !CopyFits(EncArguments(app, "true"), "enc", 2)
  {
    EncValueIs(app, "1");
    EncValueIs(app, "10");
    EncValueIs(app, "true");
  }

  lemma HiddenKey(s: string)
    requires s == "channel=dual&dual=true"
    ensures ArgValue(s, "dual") == None
  {
    assert s[8..12] == "dual";
    forall j | 0 <= j < 8
      ensures !At(s, "dual", j)
    {
      assert s[j..j + 4][0] == s[j];
    }
    FindIs(s, "dual", 8);
    ArgEndIs(s, 8, 12);
  }

  /** Values do matter: a channel called like a key hides the argument with that key. */
  lemma ValueHidesKey()
    ensures ArgValue(Join([Pair("channel", "dual"), Pair("dual", "true")]), "dual") == None
  {
    var pairs := [Pair("channel", "dual"), Pair("dual", "true")];
    assert pairs[1..] == [Pair("dual", "true")];
    assert Join(pairs) == "channel=dual&dual=true";
    HiddenKey("channel=dual&dual=true");
  }
}
