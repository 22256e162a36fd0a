/** The app id of a stream: read off the arguments into a zeroed array and rewritten there. */
module AppId {
  import opened Wrappers
  import opened Strings
  import opened Arguments
  import Slashes

  /** Searching and rewriting, one after the other: the array holds the decoded value as a C
      string, and an empty one if there is no value. */
  method ReadAppId(args: string) returns (found: bool, appid: array<char>, n: nat)
    requires '\0' !in args && TextFits(args, "appid", Slashes.PARAM_MAX_LEN)
    ensures found <==> ArgValue(args, "appid").Some?
    ensures found ==> IsText(appid, n) && appid[..n] == Slashes.Decode(ArgValue(args, "appid").value)
    ensures !found ==> IsText(appid, n) && n == 0
  {
    appid := new char[Slashes.PARAM_MAX_LEN](_ => '\0');
    n := 0;
    ghost var before := appid[..];
    var code := GetArgValue(args, "appid", appid);
    found := code == 0;
    if found {
      ghost var value := ArgValue(args, "appid").value;
      CopyLeavesText(value, before);
      TextIsCString(appid, |value|);
      assert appid[..|value|] == value;
      n := Slashes.ReplaceForwardSlash(appid, |value|);
    }
  }

  lemma EncodedIsNotEmpty(id: string)
    requires id != ""
    ensures Slashes.Encode(id) != ""
  {
    Slashes.EncodedFront(id);
  }

  /** An app id written with its slashes escaped comes out as it was if and only if it contains no
      escape itself. */
  lemma AppIdRoundTrip(pairs: seq<Pair>, i: nat, id: string)
    requires UsesKnownKeys(pairs) && i < |pairs| && id != ""
    requires pairs[i] == Pair("appid", Slashes.Encode(id)) && forall j :: 0 <= j < i ==> pairs[j].key != "appid"
    ensures var r := ArgValue(Join(pairs), "appid");
            && r == Some(Slashes.Encode(id))
            && (Slashes.Decode(r.value) == id <==> !Contains(id, Slashes.ESCAPE))
  {
    assert KEYS[0] == "appid";
    EncodedIsNotEmpty(id);
    ArgumentRoundTrip(pairs, "appid");
    Slashes.DecodeUndoesEncode(id);
  }
}
