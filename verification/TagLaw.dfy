/** Which tags a buffer's list holds, said of the fields of the tag lines alone. */
module TagLaw {
  import opened Wrappers
  import opened TagOrder
  import opened TagPipeline

  // ----- the conditions

  /** k is what the first pair for this kind gives, or the kind itself if there is no pair for it. */
  ghost predicate ReplacedBy(equiv: seq<(char, char)>, kind: char, k: char) {
    || (exists i :: 0 <= i < |equiv| && equiv[i] == (kind, k) && forall j :: 0 <= j < i ==> equiv[j].0 != kind)
    || (k == kind && forall i :: 0 <= i < |equiv| ==> equiv[i].0 != kind)
  }

  /** The same characters, or the capital and the small form of one letter. */
  predicate SameLetter(c: char, d: char) {
    || c == d
    || ('A' <= c <= 'Z' && d as int == c as int + 32)
    || ('A' <= d <= 'Z' && c as int == d as int + 32)
  }

  ghost predicate SameButForCase(a: string, b: string) {
    |a| == |b| && forall i :: 0 <= i < |a| ==> SameLetter(a[i], b[i])
  }

  ghost predicate RightLanguage(q: Query, lang: string) {
    || SameButForCase(lang, q.lang)
    || (q.cFamily && (SameButForCase(lang, "C") || SameButForCase(lang, "C++")))
  }

  /** The last field of one character behind the pattern. */
  ghost predicate HasKind(f: seq<string>, kind: char) {
    exists i :: 3 <= i < |f| && f[i] == [kind] && forall j :: i < j < |f| ==> |f[j]| != 1
  }

  /** What stands behind "language:" in the last such field behind the pattern. */
  ghost predicate HasLanguage(f: seq<string>, lang: string) {
    exists i :: 3 <= i < |f| && f[i] == "language:" + lang && forall j :: i < j < |f| ==> !("language:" <= f[j])
  }

  /** Everything asked of a line's fields for it to contribute its name with kind k. */
  ghost predicate Contributes(q: Query, f: seq<string>, k: char) {
    && |f| >= 4 && (|f[0]| > 0 ==> f[0][0] != '!')
    && (exists kind :: kind != '\0' && HasKind(f, kind) && ReplacedBy(q.equiv, kind, k))
    && (k == '\0' || k in q.order)
    && (exists lang :: HasLanguage(f, lang) && RightLanguage(q, lang))
    && f[0] !in q.skip
    && (f[1] == q.filename || f[0] in q.words)
  }

  // ----- each condition is the one that is computed

  lemma {:induction false} ReplacedIff(equiv: seq<(char, char)>, kind: char, k: char)
    ensures ReplacedBy(equiv, kind, k) <==> Equivalent(equiv, kind) == k
  {
    if |equiv| > 0 {
      var rest := equiv[1..];
      ReplacedIff(rest, kind, k);
      if kind == equiv[0].0 {
        assert equiv[0] == (kind, equiv[0].1);
      } else {
        ReplacedLater(equiv, kind, k);
      }
    }
  }

  lemma ReplacedLater(equiv: seq<(char, char)>, kind: char, k: char)
    requires |equiv| > 0 && equiv[0].0 != kind
    ensures ReplacedBy(equiv, kind, k) <==> ReplacedBy(equiv[1..], kind, k)
  {
    var rest := equiv[1..];
    assert forall i :: 0 <= i < |rest| ==> rest[i] == equiv[i + 1];
    if i :| 0 <= i < |equiv| && equiv[i] == (kind, k) && forall j :: 0 <= j < i ==> equiv[j].0 != kind {
      assert rest[i - 1] == (kind, k);
    }
    if i :| 0 <= i < |rest| && rest[i] == (kind, k) && forall j :: 0 <= j < i ==> rest[j].0 != kind {
      assert equiv[i + 1] == (kind, k);
      forall j | 0 <= j < i + 1
        ensures equiv[j].0 != kind
      {
        assert j > 0 ==> rest[j - 1] == equiv[j];
      }
    }
    if forall i :: 0 <= i < |rest| ==> rest[i].0 != kind {
      forall i | 0 <= i < |equiv|
        ensures equiv[i].0 != kind
      {
        assert i > 0 ==> rest[i - 1] == equiv[i];
      }
    }
  }

  lemma CaseIff(a: string, b: string)
    ensures SameButForCase(a, b) <==> EqualCaseless(a, b)
  {
    forall c: char, d: char
      ensures SameLetter(c, d) <==> LowerCase(c) == LowerCase(d)
    {
    }
  }

  lemma LanguageIff(q: Query, lang: string)
    ensures RightLanguage(q, lang) <==> CorrectLanguage(q, lang)
  {
    CaseIff(lang, q.lang);
    CaseIff(lang, "C");
    CaseIff(lang, "C++");
  }

  /** The last field of one character, if any, in a list of fields. */
  lemma {:induction false} KindFound(g: seq<string>, kind: char)
    requires kind != '\0'
    ensures KindOf(g) == kind <==> exists i :: 0 <= i < |g| && g[i] == [kind] && forall j :: i < j < |g| ==> |g[j]| != 1
  {
    if |g| > 0 {
      var n := |g| - 1;
      if |g[n]| == 1 {
        assert g[n] == [g[n][0]];
      } else {
        KindFound(g[..n], kind);
        assert forall i :: 0 <= i < n ==> g[..n][i] == g[i];
      }
    }
  }

  lemma {:induction false} LanguageFound(g: seq<string>, lang: string)
    ensures LanguageOf(g) == Some(lang)
       <==> exists i :: 0 <= i < |g| && g[i] == "language:" + lang && forall j :: i < j < |g| ==> !("language:" <= g[j])
  {
    if |g| > 0 {
      var n := |g| - 1;
      PrefixIff(LANGUAGE, g[n], lang);
      if !(LANGUAGE <= g[n]) {
        LanguageFound(g[..n], lang);
        assert forall i :: 0 <= i < n ==> g[..n][i] == g[i];
      }
    }
  }

  lemma PrefixIff(prefix: string, s: string, rest: string)
    ensures s == prefix + rest <==> prefix <= s && s[|prefix|..] == rest
  {
  }

  lemma KindIff(f: seq<string>, kind: char)
    requires |f| >= 3 && kind != '\0'
    ensures HasKind(f, kind) <==> KindOf(f[3..]) == kind
  {
    var g := f[3..];
    KindFound(g, kind);
    assert forall i :: 0 <= i < |g| ==> g[i] == f[i + 3];
    if i :| 3 <= i < |f| && f[i] == [kind] && forall j :: i < j < |f| ==> |f[j]| != 1 {
      assert g[i - 3] == [kind];
    }
    if i :| 0 <= i < |g| && g[i] == [kind] && forall j :: i < j < |g| ==> |g[j]| != 1 {
      assert f[i + 3] == [kind];
      forall j | i + 3 < j < |f|
        ensures |f[j]| != 1
      {
        assert g[j - 3] == f[j];
      }
    }
  }

  lemma LanguageAtIff(f: seq<string>, lang: string)
    requires |f| >= 3
    ensures HasLanguage(f, lang) <==> LanguageOf(f[3..]) == Some(lang)
  {
    var g := f[3..];
    LanguageFound(g, lang);
    assert forall i :: 0 <= i < |g| ==> g[i] == f[i + 3];
    if i :| 3 <= i < |f| && f[i] == "language:" + lang && forall j :: i < j < |f| ==> !("language:" <= f[j]) {
      assert g[i - 3] == "language:" + lang;
    }
    if i :| 0 <= i < |g| && g[i] == "language:" + lang && forall j :: i < j < |g| ==> !("language:" <= g[j]) {
      assert f[i + 3] == "language:" + lang;
      forall j | i + 3 < j < |f|
        ensures !("language:" <= f[j])
      {
        assert g[j - 3] == f[j];
      }
    }
  }

  // ----- the law

  /** Every line is its fields joined with tabs, so what is said of joined fields is said of every line. */
  lemma {:induction false} TabbedOfFields(s: string)
    ensures Tabbed(Fields(s)) == s && forall k :: 0 <= k < |Fields(s)| ==> TabFree(Fields(s)[k])
    decreases |s|
  {
    var n := FieldLength(s);
    if n < |s| {
      TabbedOfFields(s[n + 1..]);
      assert Fields(s)[1..] == Fields(s[n + 1..]);
      assert s == s[..n] + "\t" + s[n + 1..];
    }
  }

  lemma FirstCharacter(f: seq<string>)
    requires |f| >= 2
    ensures |Tabbed(f)| > 0 && Tabbed(f)[0] == if |f[0]| > 0 then f[0][0] else '\t'
  {
  }

  lemma AcceptedFields(q: Query, f: seq<string>)
    requires |f| > 0 && forall k :: 0 <= k < |f| ==> TabFree(f[k])
    ensures Accepted(q, Tabbed(f))
         == if |f| < 4 || (|f[0]| > 0 && f[0][0] == '!') then None
            else Judged(q, f[0], f[1], KindOf(f[3..]), LanguageOf(f[3..]))
  {
    FieldsOfTabbed(f);
    if |f| >= 2 {
      FirstCharacter(f);
    }
  }

  /** A line contributes kind k and name n if and only if its fields meet the conditions and the first of them is n. */
  lemma ContributesIff(q: Query, f: seq<string>, k: char, n: string)
    requires |f| > 0 && forall i :: 0 <= i < |f| ==> TabFree(f[i])
    ensures Accepted(q, Tabbed(f)) == Some(Tag(k, n)) <==> n == f[0] && Contributes(q, f, k)
  {
    AcceptedFields(q, f);
    if |f| >= 4 {
      var kind, lang := KindOf(f[3..]), LanguageOf(f[3..]);
      KindsMatch(q, f, k);
      LanguagesMatch(q, f);
      if kind != '\0' {
        ReplacedIff(q.equiv, kind, k);
      }
    }
  }

  lemma KindsMatch(q: Query, f: seq<string>, k: char)
    requires |f| >= 4
    ensures (exists kind :: kind != '\0' && HasKind(f, kind) && ReplacedBy(q.equiv, kind, k))
       <==> KindOf(f[3..]) != '\0' && Equivalent(q.equiv, KindOf(f[3..])) == k
  {
    forall kind | kind != '\0'
      ensures HasKind(f, kind) <==> KindOf(f[3..]) == kind
    {
      KindIff(f, kind);
    }
    ReplacedIff(q.equiv, KindOf(f[3..]), k);
  }

  lemma LanguagesMatch(q: Query, f: seq<string>)
    requires |f| >= 4
    ensures (exists lang :: HasLanguage(f, lang) && RightLanguage(q, lang))
       <==> LanguageOf(f[3..]).Some? && CorrectLanguage(q, LanguageOf(f[3..]).value)
  {
    forall lang
      ensures HasLanguage(f, lang) <==> LanguageOf(f[3..]) == Some(lang)
    {
      LanguageAtIff(f, lang);
    }
    if LanguageOf(f[3..]).Some? {
      LanguageIff(q, LanguageOf(f[3..]).value);
    }
  }

  predicate ProperRow(f: seq<string>) {
    |f| > 0 && forall i :: 0 <= i < |f| ==> TabFree(f[i])
  }

  /** The tag lines with these fields. */
  function TagLines(rows: seq<seq<string>>): (lines: seq<string>)
    requires forall r :: 0 <= r < |rows| ==> ProperRow(rows[r])
    ensures |lines| == |rows|
  {
    seq(|rows|, r requires 0 <= r < |rows| && ProperRow(rows[r]) => Tabbed(rows[r]))
  }

  /**
   The buffer's list holds kind k and name n if and only if some line's fields begin with n and meet the
   conditions for k; only the tag of kind NUL without a name is never listed.
   */
  lemma ListedIff(q: Query, rows: seq<seq<string>>, list: seq<Tag>, k: char, n: string)
    requires forall r :: 0 <= r < |rows| ==> ProperRow(rows[r])
    requires Answers(q, TagLines(rows), list)
    ensures Tag(k, n) in list
       <==> (k != '\0' || |n| > 0) && exists r :: 0 <= r < |rows| && rows[r][0] == n && Contributes(q, rows[r], k)
  {
    var lines := TagLines(rows);
    forall r | 0 <= r < |rows|
      ensures lines[r] in lines && (Accepted(q, lines[r]) == Some(Tag(k, n)) <==> n == rows[r][0] && Contributes(q, rows[r], k))
    {
      ContributesIff(q, rows[r], k, n);
    }
    assert Tag(k, n) in list <==> Wanted(q, lines, Tag(k, n));
    if line :| line in lines && Accepted(q, line) == Some(Tag(k, n)) {
      var r :| 0 <= r < |lines| && lines[r] == line;
      assert n == rows[r][0] && Contributes(q, rows[r], k);
    }
  }

  /** The search gives no list at all if and only if the buffer has no words or no line meets the conditions. */
  lemma NothingIff(q: Query, rows: seq<seq<string>>)
    requires forall r :: 0 <= r < |rows| ==> ProperRow(rows[r])
    ensures (forall line :: line in TagLines(rows) ==> Accepted(q, line).None?)
       <==> forall r, k :: 0 <= r < |rows| ==> !Contributes(q, rows[r], k)
  {
    var lines := TagLines(rows);
    forall r, k | 0 <= r < |rows|
      ensures lines[r] in lines && (Accepted(q, lines[r]) == Some(Tag(k, rows[r][0])) <==> Contributes(q, rows[r], k))
    {
      ContributesIff(q, rows[r], k, rows[r][0]);
    }
    if line :| line in lines && Accepted(q, line).Some? {
      var r :| 0 <= r < |lines| && lines[r] == line;
      ContributesIff(q, rows[r], Accepted(q, line).value.kind, Accepted(q, line).value.name);
      assert Contributes(q, rows[r], Accepted(q, line).value.kind);
    }
    if r, k :| 0 <= r < |rows| && Contributes(q, rows[r], k) {
      assert Accepted(q, lines[r]) == Some(Tag(k, rows[r][0]));
    }
  }

  // ----- a line of five fields

  /** ctags' usual line: name, file, pattern, one-character kind, language. */
  lemma OneLineIff(q: Query, name: string, file: string, pattern: string, kind: char, lang: string, list: seq<Tag>, k: char)
    requires TabFree(name) && TabFree(file) && TabFree(pattern) && TabFree(lang) && kind != '\t' && kind != '\0'
    requires (|name| > 0 ==> name[0] != '!') && (k != '\0' || |name| > 0)
    requires Answers(q, [Tabbed([name, file, pattern, [kind], "language:" + lang])], list)
    ensures Tag(k, name) in list
       <==> && ReplacedBy(q.equiv, kind, k) && (k == '\0' || k in q.order) && RightLanguage(q, lang)
            && name !in q.skip && (file == q.filename || name in q.words)
  {
    var f := [name, file, pattern, [kind], "language:" + lang];
    assert TagLines([f]) == [Tabbed(f)];
    assert ProperRow(f);
    ListedIff(q, [f], list, k, name);
    FiveFields(name, file, pattern, kind, lang);
    OneRow(f, q, k, name);
  }

  lemma OneRow(f: seq<string>, q: Query, k: char, n: string)
    requires |f| > 0
    ensures (exists r :: 0 <= r < |[f]| && [f][r][0] == n && Contributes(q, [f][r], k)) <==> f[0] == n && Contributes(q, f, k)
  {
    if f[0] == n && Contributes(q, f, k) {
      assert [f][0] == f;
    }
  }

  lemma FiveFields(name: string, file: string, pattern: string, kind: char, lang: string)
    ensures var f := [name, file, pattern, [kind], "language:" + lang];
            && (forall c :: HasKind(f, c) <==> c == kind) && (forall l :: HasLanguage(f, l) <==> l == lang)
  {
    var f := [name, file, pattern, [kind], "language:" + lang];
    assert |f[4]| >= 9 && f[3] == [kind];
    forall c
      ensures HasKind(f, c) <==> c == kind
    {
      KindOfFive(f, kind, c);
    }
    forall l
      ensures HasLanguage(f, l) <==> l == lang
    {
      LanguageOfFive(f, lang, l);
    }
  }

  lemma KindOfFive(f: seq<string>, kind: char, c: char)
    requires |f| == 5 && f[3] == [kind] && |f[4]| >= 9
    ensures HasKind(f, c) <==> c == kind
  {
  }

  lemma LanguageOfFive(f: seq<string>, lang: string, l: string)
    requires |f| == 5 && f[4] == "language:" + lang
    ensures HasLanguage(f, l) <==> l == lang
  {
    PrefixIff("language:", f[4], l);
    PrefixIff("language:", f[4], lang);
  }
}
