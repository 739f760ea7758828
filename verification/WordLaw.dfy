/** The words of a text, said of its characters alone. */
module WordLaw {
  import opened Tokens

  predicate Digit(c: char) { '0' <= c <= '9' }

  predicate Letter(c: char) { 'a' <= c <= 'z' || 'A' <= c <= 'Z' || c == '_' }

  predicate InWord(c: char) { Letter(c) || Digit(c) }

  lemma ClassesIff(c: char)
    ensures (CFunc(c, true) <==> Letter(c)) && (CFunc(c, false) <==> InWord(c))
    ensures (IsStart(c) <==> Letter(c)) && (IsWord(c) <==> InWord(c)) && (IsDigit(c) <==> Digit(c))
  {
  }

  /** Only digits stand between a character that cannot be in a word, or the start of the text, and position i. */
  ghost predicate BehindDigits(t: string, i: nat) {
    exists d: nat :: d <= i <= |t| && DigitsFrom(t, d, i)
  }

  predicate DigitsFrom(t: string, d: nat, i: nat)
    requires d <= i <= |t|
  {
    (forall k :: d <= k < i ==> Digit(t[k])) && (d > 0 ==> !InWord(t[d - 1]))
  }

  /** From i to j stand a letter or underscore and then letters, digits and underscores, as many as there are. */
  ghost predicate WordAt(t: string, i: nat, j: nat) {
    && i < j <= |t| && Letter(t[i]) && (forall k :: i <= k < j ==> InWord(t[k])) && (j < |t| ==> !InWord(t[j]))
    && BehindDigits(t, i)
  }

  ghost predicate HasWord(t: string, w: string) { exists i: nat, j: nat :: WordAt(t, i, j) && w == t[i..j] }

  // ----- the first run and what follows it

  function FirstWord(s: string): seq<string> { if StripDigits(s) == "" then [] else [StripDigits(s)] }

  lemma WordsOfFirst(t: string)
    ensures Words(t) == FirstWord(t[..RunLength(t)]) + if RunLength(t) == |t| then [] else Words(t[RunLength(t) + 1..])
  {
    FirstPiece(t);
    if RunLength(t) == |t| {
      assert Stripped(Pieces(t)[1..]) == [];
    }
  }

  lemma {:induction false} LeadingDigits(s: string) returns (d: nat)
    ensures d <= |s| && StripDigits(s) == s[d..] && (forall k :: 0 <= k < d ==> Digit(s[k])) && (d < |s| ==> !Digit(s[d]))
  {
    if |s| > 0 && IsDigit(s[0]) {
      d := LeadingDigits(s[1..]);
      assert s[1..][d..] == s[d + 1..];
      assert forall k :: 0 <= k < d ==> s[1..][k] == s[k + 1];
      d := d + 1;
    } else {
      d := 0;
      assert s[0..] == s;
    }
  }

  /** In a run of word characters, or at the front of a text that begins with one. */
  lemma FirstRunWord(t: string, n: nat, w: string)
    requires n == RunLength(t)
    ensures w in FirstWord(t[..n]) <==> exists i: nat :: i < n && WordAt(t, i, n) && w == t[i..n]
  {
    var s := t[..n];
    var d := LeadingDigits(s);
    assert forall k :: 0 <= k < n ==> s[k] == t[k] && InWord(t[k]);
    assert s[d..] == t[d..n];
    if d < n {
      assert Letter(t[d]);
      assert DigitsFrom(t, 0, d);
      assert WordAt(t, d, n);
    }
    forall i: nat | i < n && WordAt(t, i, n)
      ensures i == d
    {
      var e: nat :| e <= i && DigitsFrom(t, e, i);
      assert e > 0 ==> InWord(t[e - 1]);
      assert !Digit(t[i]);
    }
  }

  /** What is a word behind a character that cannot be in one is a word of the whole text. */
  lemma WordMovedUp(t: string, m: nat, i: nat, j: nat)
    requires 0 < m <= |t| && !InWord(t[m - 1]) && WordAt(t[m..], i, j)
    ensures WordAt(t, i + m, j + m) && t[m..][i..j] == t[i + m..j + m]
  {
    var r := t[m..];
    forall k | i + m <= k < j + m
      ensures InWord(t[k])
    {
      assert r[k - m] == t[k];
    }
    var d: nat :| d <= i && DigitsFrom(r, d, i);
    DigitsMovedUp(t, m, d, i);
    assert t[m..][i..j] == t[i + m..j + m];
  }

  lemma DigitsMovedUp(t: string, m: nat, d: nat, i: nat)
    requires 0 < m <= |t| && !InWord(t[m - 1]) && d <= i <= |t| - m && DigitsFrom(t[m..], d, i)
    ensures DigitsFrom(t, d + m, i + m)
  {
    var r := t[m..];
    forall k | d + m <= k < i + m
      ensures Digit(t[k])
    {
      assert r[k - m] == t[k];
    }
    assert d > 0 ==> r[d - 1] == t[d + m - 1];
  }

  lemma WordMovedDown(t: string, m: nat, i: nat, j: nat)
    requires 0 < m <= i && m <= |t| && !InWord(t[m - 1]) && WordAt(t, i, j)
    ensures WordAt(t[m..], i - m, j - m) && t[m..][i - m..j - m] == t[i..j]
  {
    var r := t[m..];
    forall k | i - m <= k < j - m
      ensures InWord(r[k])
    {
      assert r[k] == t[k + m];
    }
    var d: nat :| d <= i && DigitsFrom(t, d, i);
    assert d >= m;
    DigitsMovedDown(t, m, d, i);
    assert t[m..][i - m..j - m] == t[i..j];
  }

  lemma DigitsMovedDown(t: string, m: nat, d: nat, i: nat)
    requires 0 < m <= d <= i <= |t| && DigitsFrom(t, d, i)
    ensures DigitsFrom(t[m..], d - m, i - m)
  {
    var r := t[m..];
    forall k | d - m <= k < i - m
      ensures Digit(r[k])
    {
      assert r[k] == t[k + m];
    }
    assert d > m ==> r[d - m - 1] == t[d - 1];
  }

  /** A word is wholly in the first run or wholly behind it. */
  lemma InRunOrBehind(t: string, i: nat, j: nat)
    requires WordAt(t, i, j)
    ensures j == RunLength(t) || i > RunLength(t)
  {
    var n := RunLength(t);
    assert n < |t| ==> !InWord(t[n]);
    assert forall k :: 0 <= k < n ==> InWord(t[k]);
  }

  /** The words of a text are exactly the longest such stretches of it. */
  lemma {:induction false} WordsIff(t: string, w: string)
    ensures w in Words(t) <==> HasWord(t, w)
    decreases |t|
  {
    var n := RunLength(t);
    WordsOfFirst(t);
    FirstRunWord(t, n, w);
    if n < |t| {
      WordsIff(t[n + 1..], w);
      WordsBehind(t, n, w);
    }
    if HasWord(t, w) {
      var i: nat, j: nat :| WordAt(t, i, j) && w == t[i..j];
      InRunOrBehind(t, i, j);
    }
  }

  lemma WordsBehind(t: string, n: nat, w: string)
    requires n == RunLength(t) < |t|
    ensures HasWord(t[n + 1..], w) <==> exists i: nat, j: nat :: n < i && WordAt(t, i, j) && w == t[i..j]
  {
    var m := n + 1;
    if i: nat, j: nat :| WordAt(t[m..], i, j) && w == t[m..][i..j] {
      WordMovedUp(t, m, i, j);
    }
    if i: nat, j: nat :| n < i && WordAt(t, i, j) && w == t[i..j] {
      WordMovedDown(t, m, i, j);
    }
  }

  lemma LastOf(pieces: seq<string>, first: string, others: seq<string>)
    requires |pieces| > 0 && pieces[0] == first && pieces[1..] == others
    ensures |others| == 0 ==> pieces[|pieces| - 1] == first
    ensures |others| > 0 ==> pieces[|pieces| - 1] == others[|others| - 1]
  {
  }

  lemma OneRun(t: string)
    requires RunLength(t) == |t|
    ensures EndsInWord(t) <==> StripDigits(t) != ""
  {
    FirstPiece(t);
    assert t[..|t|] == t;
    LastOf(Pieces(t), t, []);
  }

  lemma BehindFirstRun(t: string, rest: string)
    requires RunLength(t) < |t| && rest == t[RunLength(t) + 1..]
    ensures EndsInWord(t) <==> EndsInWord(rest)
  {
    FirstPiece(t);
    LastOf(Pieces(t), Pieces(t)[0], Pieces(rest));
  }

  /** A word stands from i to the end. */
  ghost predicate WordToEnd(t: string, i: nat) { WordAt(t, i, |t|) }

  lemma LastWordBehind(t: string, m: nat)
    requires m == RunLength(t) + 1 <= |t|
    ensures (exists i: nat :: WordToEnd(t, i)) <==> exists i: nat :: WordToEnd(t[m..], i)
  {
    if i: nat :| WordToEnd(t[m..], i) {
      WordMovedUp(t, m, i, |t| - m);
      assert WordToEnd(t, i + m);
    }
    if i: nat :| WordToEnd(t, i) {
      InRunOrBehind(t, i, |t|);
      WordMovedDown(t, m, i, |t|);
      assert WordToEnd(t[m..], i - m);
    }
  }

  /** The tokeniser runs off the end of a text exactly if a word stands there. */
  lemma {:induction false} EndsInWordIff(t: string)
    ensures EndsInWord(t) <==> exists i: nat :: WordToEnd(t, i)
    decreases |t|
  {
    if RunLength(t) == |t| {
      OneRun(t);
      WordAtEndIff(t);
    } else {
      BehindFirstRun(t, t[RunLength(t) + 1..]);
      EndsInWordIff(t[RunLength(t) + 1..]);
      LastWordBehind(t, RunLength(t) + 1);
    }
  }

  lemma WordAtEndIff(t: string)
    requires RunLength(t) == |t|
    ensures StripDigits(t) != "" <==> exists i: nat :: WordToEnd(t, i)
  {
    var n := |t|;
    assert t[..n] == t;
    FirstRunWord(t, n, StripDigits(t));
    if StripDigits(t) != "" {
      var i: nat :| i < n && WordAt(t, i, n);
      assert WordToEnd(t, i);
    }
    if i: nat :| WordToEnd(t, i) {
      FirstRunWord(t, n, t[i..n]);
    }
  }
}
