/** Characters in a buffer up to the NUL that ends them. */
module CStrings {

  /** The text before the first NUL. */
  function CText(s: seq<char>): (t: string)
    ensures |t| <= |s| && t == s[..|t|] && '\0' !in t
    ensures '\0' in s ==> |t| < |s| && s[|t|] == '\0'
  {
    if |s| == 0 || s[0] == '\0' then "" else [s[0]] + CText(s[1..])
  }

  lemma {:induction false} CTextOfTerminated(t: string, more: seq<char>)
    requires '\0' !in t
    ensures CText(t + ['\0'] + more) == t
  {
    var s := t + ['\0'] + more;
    if |t| > 0 {
      assert s[1..] == t[1..] + ['\0'] + more && s[0] == t[0] && t[0] in t;
      CTextOfTerminated(t[1..], more);
    }
  }
}
