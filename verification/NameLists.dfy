/** Names behind each other in one text, each followed by a separator, and how the text tells them apart. */
module NameLists {
  import opened LinkedList
  import opened Lines

  predicate SepAt(s: string, i: nat, sep: string) { i + |sep| <= |s| && s[i..i + |sep|] == sep }

  /** The whole separator stands nowhere inside. */
  predicate SepFree(s: string, sep: string) { forall i :: 0 <= i < |s| ==> !SepAt(s, i, sep) }

  predicate AllSepFree(names: seq<string>, sep: string) { forall k :: 0 <= k < |names| ==> SepFree(names[k], sep) }

  /** One character, or two different ones, so that it cannot overlap itself. */
  predicate Unbordered(sep: string) { |sep| == 1 || (|sep| == 2 && sep[0] != sep[1]) }

  // ----- names without separators

  lemma JoinedHead(names: seq<string>, sep: string)
    requires |names| > 0
    ensures Joined(names, sep) == names[0] + sep + Joined(names[1..], sep)
  {
    assert names == [names[0]] + names[1..];
    JoinedCons(names[0], names[1..], sep);
  }

  lemma OccurrenceInside(a: string, b: string, sep: string, x: string, y: string)
    requires a + sep + x == b + sep + y && |a| + |sep| <= |b|
    ensures SepAt(b, |a|, sep)
  {
    var s := a + sep + x;
    assert s[|a|..|a| + |sep|] == sep;
    assert b == s[..|b|];
    assert b[|a|..|a| + |sep|] == s[|a|..|a| + |sep|];
  }

  lemma OverlapIsBorder(a: string, b: string, sep: string, x: string, y: string)
    requires a + sep + x == b + sep + y && |sep| == 2 && |a| + 1 == |b|
    ensures sep[0] == sep[1]
  {
    var s := a + sep + x;
    assert s[|a| + 1] == sep[1];
    assert (b + sep + y)[|b|] == sep[0];
  }

  lemma NotShorter(a: string, b: string, sep: string, x: string, y: string)
    requires Unbordered(sep) && a + sep + x == b + sep + y && SepFree(b, sep)
    ensures |a| >= |b|
  {
    if |a| + |sep| <= |b| {
      OccurrenceInside(a, b, sep, x, y);
    } else if |sep| == 2 && |a| + 1 == |b| {
      OverlapIsBorder(a, b, sep, x, y);
    }
  }

  lemma FirstNameIsShared(a: string, b: string, sep: string, x: string, y: string)
    requires Unbordered(sep) && a + sep + x == b + sep + y && SepFree(a, sep) && SepFree(b, sep)
    ensures a == b && x == y
  {
    NotShorter(a, b, sep, x, y);
    NotShorter(b, a, sep, y, x);
    var s, t := a + sep + x, b + sep + y;
    assert a == s[..|a|] && b == t[..|b|];
    assert x == s[|a| + |sep|..] && y == t[|b| + |sep|..];
  }

  lemma {:induction false} JoinedDetermines(a: seq<string>, b: seq<string>, sep: string)
    requires Unbordered(sep) && AllSepFree(a, sep) && AllSepFree(b, sep) && Joined(a, sep) == Joined(b, sep)
    ensures a == b
    decreases |a|
  {
    if |a| > 0 && |b| > 0 {
      JoinedHead(a, sep);
      JoinedHead(b, sep);
      FirstNameIsShared(a[0], b[0], sep, Joined(a[1..], sep), Joined(b[1..], sep));
      JoinedDetermines(a[1..], b[1..], sep);
      assert a == [a[0]] + a[1..] && b == [b[0]] + b[1..];
    } else if |a| > 0 {
      JoinedHead(a, sep);
    } else if |b| > 0 {
      JoinedHead(b, sep);
    }
  }

  // ----- names with separators

  /** The first place of the separator, or the end. */
  function FirstSep(s: string, sep: string): (n: nat)
    requires |sep| > 0
    ensures n <= |s| && (n < |s| ==> n + |sep| <= |s|)
  {
    if |s| == 0 || SepAt(s, 0, sep) then 0 else 1 + FirstSep(s[1..], sep)
  }

  lemma {:induction false} FirstSepIsFirst(s: string, sep: string)
    requires |sep| > 0
    ensures var n := FirstSep(s, sep); (n < |s| ==> SepAt(s, n, sep)) && forall i :: 0 <= i < n ==> !SepAt(s, i, sep)
  {
    if |s| > 0 && !SepAt(s, 0, sep) {
      FirstSepIsFirst(s[1..], sep);
      SepShifted(s, sep);
    }
  }

  lemma SepShifted(s: string, sep: string)
    requires |s| > 0
    ensures forall i :: 0 < i <= |s| ==> (SepAt(s, i, sep) <==> SepAt(s[1..], i - 1, sep))
  {
    forall i | 0 < i <= |s|
      ensures SepAt(s, i, sep) <==> SepAt(s[1..], i - 1, sep)
    {
      if i + |sep| <= |s| {
        assert s[1..][i - 1..i - 1 + |sep|] == s[i..i + |sep|];
      }
    }
  }

  /** A text cut at every separator. */
  function SplitAll(s: string, sep: string): (names: seq<string>)
    requires |sep| > 0
    ensures |names| > 0
    decreases |s|
  {
    var n := FirstSep(s, sep);
    if n == |s| then [s] else [s[..n]] + SplitAll(s[n + |sep|..], sep)
  }

  lemma {:induction false} SplitAllJoined(s: string, sep: string)
    requires |sep| > 0
    ensures Joined(SplitAll(s, sep), sep) == s + sep
    decreases |s|
  {
    var n := FirstSep(s, sep);
    FirstSepIsFirst(s, sep);
    if n == |s| {
      JoinedOne(s, sep);
    } else {
      var front, rest := s[..n], s[n + |sep|..];
      SplitAllJoined(rest, sep);
      JoinedCons(front, SplitAll(rest, sep), sep);
      CutAt(s, n, sep, front, rest);
    }
  }

  lemma JoinedOne(s: string, sep: string)
    ensures Joined([s], sep) == s + sep
  {
    assert [s][..0] == [];
    assert "" + s + sep == s + sep;
  }

  lemma CutAt(s: string, n: nat, sep: string, front: string, rest: string)
    requires SepAt(s, n, sep) && front == s[..n] && rest == s[n + |sep|..]
    ensures front + sep + (rest + sep) == s + sep
  {
    assert s == front + sep + rest;
  }

  lemma {:induction false} SplitAllFree(s: string, sep: string)
    requires |sep| > 0
    ensures AllSepFree(SplitAll(s, sep), sep)
    decreases |s|
  {
    var n := FirstSep(s, sep);
    FirstSepIsFirst(s, sep);
    if n < |s| {
      SplitAllFree(s[n + |sep|..], sep);
      FrontIsFree(s, n, sep);
    }
  }

  lemma FrontIsFree(s: string, n: nat, sep: string)
    requires n <= |s| && forall i :: 0 <= i < n ==> !SepAt(s, i, sep)
    ensures SepFree(s[..n], sep)
  {
    forall i | 0 <= i < n
      ensures !SepAt(s[..n], i, sep)
    {
      assert !SepAt(s, i, sep);
      if i + |sep| <= n {
        assert s[..n][i..i + |sep|] == s[i..i + |sep|];
      }
    }
  }

  function SplitNames(names: seq<string>, sep: string): (parts: seq<string>)
    requires |sep| > 0
    ensures |parts| >= |names|
  {
    if |names| == 0 then [] else SplitAll(names[0], sep) + SplitNames(names[1..], sep)
  }

  /** Cut at the separators inside them, the names make the same text. */
  lemma {:induction false} SplitNamesJoined(names: seq<string>, sep: string)
    requires |sep| > 0
    ensures Joined(SplitNames(names, sep), sep) == Joined(names, sep) && AllSepFree(SplitNames(names, sep), sep)
  {
    if |names| > 0 {
      SplitNamesJoined(names[1..], sep);
      SplitAllJoined(names[0], sep);
      SplitAllFree(names[0], sep);
      JoinedConcat(SplitAll(names[0], sep), SplitNames(names[1..], sep), sep);
      JoinedHead(names, sep);
    }
  }

  /** A list can be told from its text, among lists of names without separators, if and only if it is one of them. */
  lemma ReadBackIff(names: seq<string>, sep: string)
    requires Unbordered(sep)
    ensures AllSepFree(names, sep) <==> forall b :: AllSepFree(b, sep) && Joined(b, sep) == Joined(names, sep) ==> b == names
  {
    if AllSepFree(names, sep) {
      forall b | AllSepFree(b, sep) && Joined(b, sep) == Joined(names, sep)
        ensures b == names
      {
        JoinedDetermines(b, names, sep);
      }
    } else {
      SplitNamesJoined(names, sep);
      assert SplitNames(names, sep) != names;
    }
  }
}
