/** Substring search, as strstr and strchr do it. */
module Strings {

  /** `key` stands at position i of s. */
  predicate At(s: string, key: string, i: int) {
    0 <= i && i + |key| <= |s| && s[i..i + |key|] == key
  }

  predicate Contains(s: string, key: string) {
    exists i :: 0 <= i <= |s| && At(s, key, i)
  }

  /** The first occurrence of key in s from position i on; a value behind the end if there is none. */
  function Find(s: string, key: string, i: nat): (r: nat)
    requires i <= |s|
    ensures i <= r <= |s| + 1
    ensures r <= |s| ==> At(s, key, r)
    ensures forall j :: i <= j < r && j <= |s| ==> !At(s, key, j)
    decreases |s| - i
  {
    if At(s, key, i) then i else if i == |s| then |s| + 1 else Find(s, key, i + 1)
  }

  lemma FindIs(s: string, key: string, r: nat)
    requires At(s, key, r) && forall j :: 0 <= j < r ==> !At(s, key, j)
    ensures Find(s, key, 0) == r
  {
  }

  lemma NotFound(s: string, key: string)
    ensures Find(s, key, 0) == |s| + 1 <==> !Contains(s, key)
  {
    if Find(s, key, 0) <= |s| {
      assert At(s, key, Find(s, key, 0));
    }
  }

  // ----- C strings -----

  /** The characters hold a C string of the given length: up to their first null. */
  predicate IsCString(s: string, length: nat) {
    length < |s| && s[length] == '\0' && forall i :: 0 <= i < length ==> s[i] != '\0'
  }

  /** `length` is the length of the C string in the array. */
  ghost predicate IsText(a: array<char>, length: nat)
    reads a
  {
    length < a.Length && a[length] == '\0' && forall i :: 0 <= i < length ==> a[i] != '\0'
  }

  lemma TextIsCString(a: array<char>, length: nat)
    ensures IsText(a, length) <==> IsCString(a[..], length)
  {
  }

  /** The first null from position i on. */
  function FirstNull(s: string, i: nat): (n: nat)
    requires i < |s| && s[|s| - 1] == '\0'
    ensures i <= n < |s| && s[n] == '\0' && forall j :: i <= j < n ==> s[j] != '\0'
    decreases |s| - i
  {
    if s[i] == '\0' then i else FirstNull(s, i + 1)
  }

  /** A text copied over the front of an array that ends in a null leaves a C string there if and only
      if it is shorter than the array. */
  lemma CopyLeavesText(text: string, before: string)
    requires '\0' !in text && |text| <= |before| && before != [] && before[|before| - 1] == '\0'
    ensures (exists n: nat :: IsCString(text + before[|text|..], n)) <==> |text| < |before|
    ensures |text| < |before| && before[|text|] == '\0' ==> IsCString(text + before[|text|..], |text|)
  {
    var s := text + before[|text|..];
    if |text| < |before| {
      assert IsCString(s, FirstNull(s, 0));
    } else {
      assert s == text;
    }
  }
}
