/** Conditional regions, continued comments and escapes, said of the characters of the lines. */
module StripLaw {
  import opened Strip
  import opened StripMeaning

  // ----- preprocessor lines

  predicate BlankText(a: string) { forall i :: 0 <= i < |a| ==> a[i] == ' ' || a[i] == '\t' }

  /** Blanks, "#", blanks, and something that begins with the name. */
  ghost predicate WrittenAs(line: string, name: string, a: string, b: string, rest: string) {
    BlankText(a) && BlankText(b) && line == a + "#" + b + name + rest
  }

  ghost predicate Says(line: string, name: string) {
    exists a, b, rest :: WrittenAs(line, name, a, b, rest)
  }

  lemma {:induction false} BlanksAre(a: string, s: string)
    requires BlankText(a) && |s| > 0 && s[0] != ' ' && s[0] != '\t'
    ensures Blanks(a + s) == |a| && Unindented(a + s) == s
    decreases |a|
  {
    if |a| == 0 {
      assert a + s == s;
    } else {
      assert (a + s)[0] == a[0] && (a + s)[1..] == a[1..] + s;
      BlanksAre(a[1..], s);
      assert (a + s)[|a|..] == s;
    }
  }

  lemma BlanksAreBlank(s: string)
    ensures BlankText(s[..Blanks(s)]) && s == s[..Blanks(s)] + Unindented(s)
  {
  }

  lemma DirectiveFromText(line: string, name: string, a: string, b: string, rest: string)
    requires |name| > 0 && name[0] != ' ' && name[0] != '\t' && WrittenAs(line, name, a, b, rest)
    ensures Directive(line, name)
  {
    var tail := name + rest;
    assert line == a + ("#" + (b + tail));
    BlanksAre(a, "#" + (b + tail));
    BlanksAre(b, tail);
    assert ("#" + (b + tail))[1..] == b + tail;
  }

  lemma TextFromDirective(line: string, name: string)
    requires Directive(line, name)
    ensures Says(line, name)
  {
    var s := Unindented(line);
    var t := Unindented(s[1..]);
    BlanksAreBlank(line);
    BlanksAreBlank(s[1..]);
    var a, b, rest := line[..Blanks(line)], s[1..][..Blanks(s[1..])], t[|name|..];
    DirectiveText(line, a, s, b, t, name, rest);
    assert WrittenAs(line, name, a, b, rest);
  }

  lemma DirectiveText(line: string, a: string, s: string, b: string, t: string, name: string, rest: string)
    requires line == a + s && |s| > 0 && s[0] == '#' && s[1..] == b + t && name <= t && rest == t[|name|..]
    ensures line == a + "#" + b + name + rest
  {
    assert t == name + rest;
    assert s == "#" + s[1..];
  }

  /** A line is such a directive if and only if it is written as one, with any blanks before and behind the "#". */
  lemma DirectiveIff(line: string, name: string)
    requires |name| > 0 && name[0] != ' ' && name[0] != '\t'
    ensures Directive(line, name) <==> Says(line, name)
  {
    if Directive(line, name) {
      TextFromDirective(line, name);
    }
    if a, b, rest :| WrittenAs(line, name, a, b, rest) {
      DirectiveFromText(line, name, a, b, rest);
    }
  }

  // ----- regions

  /** At the start of a text "#if 0" opens a region and is not kept, however it is indented and whatever follows it. */
  lemma IfZeroOpens(a: string, b: string, rest: string)
    requires BlankText(a) && BlankText(b)
    ensures Line(START, a + "#" + b + "if 0" + rest) == Stripped(State(IfZero, 1), "")
  {
    var line := a + "#" + b + "if 0" + rest;
    assert WrittenAs(line, "if 0", a, b, rest);
    DirectiveFromText(line, "if 0", a, b, rest);
  }

  /** No other line opens one. */
  lemma OnlyIfZeroOpens(line: string)
    ensures Line(START, line).state.want == IfZero <==> Says(line, "if 0")
  {
    DirectiveIff(line, "if 0");
    if !Directive(line, "if 0") {
      RestLeavesIfZeroAlone(Unindented(line), Nothing, false, Continued(line));
    }
  }

  /** Inside a region nothing is kept; "#if" opens one level, "#endif" closes one, and no other line does either. */
  lemma InsideRegion(n: int, line: string)
    requires n > 0
    ensures Says(line, "if") ==> Line(State(IfZero, n), line) == Stripped(State(IfZero, n + 1), "")
    ensures Says(line, "endif") && n > 1 ==> Line(State(IfZero, n), line) == Stripped(State(IfZero, n - 1), "")
    ensures Says(line, "endif") && n == 1 ==> Line(State(IfZero, n), line) == Stripped(START, "")
    ensures !Says(line, "if") && !Says(line, "endif") ==> Line(State(IfZero, n), line) == Stripped(State(IfZero, n), "")
  {
    DirectiveIff(line, "if");
    DirectiveIff(line, "endif");
    IfIsNotEndif(line);
    if Directive(line, "endif") {
      DirectiveIsHash(line, "endif");
    }
  }

  /** Lines that say "#if" less lines that say "#endif". */
  ghost function Levels(lines: seq<string>): int {
    if |lines| == 0 then 0
    else
      var line := lines[|lines| - 1];
      Levels(lines[..|lines| - 1]) + (if Says(line, "if") then 1 else 0) - (if Says(line, "endif") then 1 else 0)
  }

  lemma {:induction false} LevelsAreDepth(lines: seq<string>)
    ensures Levels(lines) == Depth(lines)
  {
    if |lines| > 0 {
      var line := lines[|lines| - 1];
      LevelsAreDepth(lines[..|lines| - 1]);
      DirectiveIff(line, "if");
      DirectiveIff(line, "endif");
      IfIsNotEndif(line);
    }
  }

  /**
   From a line that says "#if 0" up to the line that says the "#endif" of the same level, no line is kept,
   and the text behind is read as if none of them were there.
   */
  lemma WrittenRegionIsRemoved(before: seq<string>, opening: string, body: seq<string>, closing: string, rest: seq<string>)
    requires Cleaned(START, before).state.want == Nothing
    requires Says(opening, "if 0") && Says(closing, "endif")
    requires Levels(body) == 0 && forall k :: 0 <= k <= |body| ==> Levels(body[..k]) >= 0
    ensures Cleaned(START, before + ([opening] + body + [closing]) + rest) == Cleaned(START, before + rest)
  {
    var region := [opening] + body + [closing];
    DirectiveIff(opening, "if 0");
    DirectiveIff(closing, "endif");
    LevelsAreDepth(body);
    forall k | 0 <= k <= |body|
      ensures 1 + Depth(body[..k]) > 0
    {
      LevelsAreDepth(body[..k]);
    }
    assert region[1..|region| - 1] == body;
    RegionIsRemoved(before, region, rest);
  }

  /** So a region with only ordinary lines in it is dropped whatever blanks its two directives are written with. */
  lemma HiddenLinesAreRemoved(a: string, b: string, r: string, hidden: seq<string>, c: string, d: string, s: string, rest: seq<string>)
    requires BlankText(a) && BlankText(b) && BlankText(c) && BlankText(d)
    requires forall k :: 0 <= k < |hidden| ==> !Says(hidden[k], "if") && !Says(hidden[k], "endif")
    ensures Cleaned(START, [a + "#" + b + "if 0" + r] + hidden + [c + "#" + d + "endif" + s] + rest) == Cleaned(START, rest)
  {
    var opening, closing := a + "#" + b + "if 0" + r, c + "#" + d + "endif" + s;
    assert WrittenAs(opening, "if 0", a, b, r) && WrittenAs(closing, "endif", c, d, s);
    forall k | 0 <= k <= |hidden|
      ensures Levels(hidden[..k]) == 0
    {
      NoLevels(hidden[..k]);
    }
    assert hidden[..|hidden|] == hidden;
    WrittenRegionIsRemoved([], opening, hidden, closing, rest);
    assert [] + ([opening] + hidden + [closing]) == [opening] + hidden + [closing] && [] + rest == rest;
  }

  lemma {:induction false} NoLevels(lines: seq<string>)
    requires forall k :: 0 <= k < |lines| ==> !Says(lines[k], "if") && !Says(lines[k], "endif")
    ensures Levels(lines) == 0
  {
    if |lines| > 0 {
      NoLevels(lines[..|lines| - 1]);
    }
  }

  // ----- comments and literals in a line of code

  /** Code without quotes, slashes and NULs. */
  predicate Code(s: string) { forall i :: 0 <= i < |s| ==> s[i] != '\'' && s[i] != '"' && s[i] != '/' && s[i] != '\0' }

  /** Code that begins a line as neither a blank nor a directive. */
  predicate FirstCode(s: string) { Code(s) && |s| > 0 && s[0] != ' ' && s[0] != '\t' && s[0] != '#' }

  lemma NotIndented(s: string, rest: string)
    requires FirstCode(s)
    ensures Unindented(s) == s && !Directive(s + rest, "if 0")
  {
    assert Blanks(s) == 0 && Blanks(s + rest) == 0 && (s + rest)[0] == s[0];
    assert Unindented(s + rest) == s + rest;
  }

  /** A comment becomes one blank. */
  lemma CommentBecomesBlank(a: string, body: string, b: string)
    requires FirstCode(a) && Code(b) && forall i :: 0 <= i < |body| - 1 ==> !(body[i] == '*' && body[i + 1] == '/')
    ensures Line(START, a + "/*" + body + "*/" + b) == Stripped(START, a + " " + b + "\n")
  {
    OnePartLine(a, Comment(body), b);
    Between(a, "/*", body, "*/", b);
    assert a + (" " + (b + "")) == a + " " + b;
  }

  /** A literal disappears, quotes and all. */
  lemma LiteralDisappears(a: string, q: char, body: string, b: string)
    requires FirstCode(a) && Code(b) && (q == '"' || q == '\'')
    requires BackslashesBefore(body, |body|) % 2 == 0
    requires forall j :: 0 <= j < |body| && body[j] == q ==> BackslashesBefore(body, j) % 2 == 1
    ensures Line(START, a + [q] + body + [q] + b) == Stripped(START, a + b + "\n")
  {
    QuotedBodyIff(body, q);
    QuotedLine(a, Quoted(q, body), q, body, b);
  }

  lemma QuotedLine(a: string, skipped: Skipped, q: char, body: string, b: string)
    requires FirstCode(a) && Code(b) && skipped == Quoted(q, body) && ProperSkipped(skipped)
    ensures Line(START, a + [q] + body + [q] + b) == Stripped(START, a + b + "\n")
  {
    OnePartLine(a, skipped, b);
    QuotedText(a, skipped, q, body, b);
  }

  lemma QuotedText(a: string, skipped: Skipped, q: char, body: string, b: string)
    requires skipped == Quoted(q, body)
    ensures a + (Delimited(skipped) + (b + "")) == a + [q] + body + [q] + b
    ensures a + (Replacement(skipped) + (b + "")) == a + b
  {
    Between(a, [q], body, [q], b);
    assert "" + (b + "") == b;
  }

  lemma Between(a: string, x: string, body: string, y: string, b: string)
    ensures a + ((x + body + y) + (b + "")) == a + x + body + y + b
  {
    assert b + "" == b;
    Regroup(x + body, y, b);
    Regroup(x, body, y + b);
    Regroup(a, x, body + (y + b));
    Regroup(a + x, body, y + b);
    Regroup(a + x + body, y, b);
  }

  /** And so does a line comment. */
  lemma LineCommentDisappears(a: string, c: string)
    requires FirstCode(a)
    ensures Line(START, a + "//" + c).text == a + "\n"
  {
    var line := a + "//" + c;
    NotIndented(a, "//" + c);
    assert a + ("//" + c) == line && Written([], a, CommentToEnd(c)) == line;
    LineIsKeptIffSeparated(START, [], a, CommentToEnd(c));
    assert a + "" == a;
  }

  lemma OnePartLine(a: string, skipped: Skipped, b: string)
    requires FirstCode(a) && Code(b) && ProperSkipped(skipped)
    ensures Line(START, a + (Delimited(skipped) + (b + ""))) == Stripped(START, a + (Replacement(skipped) + (b + "")) + "\n")
  {
    var parts := [Part(a, skipped)];
    assert parts[1..] == [];
    assert Written(parts, b, LineEnds) == a + (Delimited(skipped) + (b + ""));
    NotIndented(a, Delimited(skipped) + (b + ""));
    LineIsKeptIffSeparated(START, parts, b, LineEnds);
    assert DedentedParts(parts) == parts;
    assert Kept(parts, b, LineEnds) == a + (Replacement(skipped) + (b + ""));
  }

  // ----- continued line comments

  /**
   A comment that runs to the end of its line takes the next line too if and only if it has at least two
   characters, the last one is a backslash, and the one before is not.
   */
  lemma CommentGoesOnIff(c: string)
    ensures Line(START, "//" + c) == Stripped(State(if |c| >= 2 && c[|c| - 1] == '\\' && c[|c| - 2] != '\\' then LineComment else Nothing, 0), "")
  {
    var line := "//" + c;
    assert Blanks(line) == 0 && Unindented(line) == line;
    assert LookAt(line, Nothing, false).Cut?;
    RestStep(line, Nothing, false, Continued(line), Cut);
    assert |c| >= 2 ==> line[|line| - 1] == c[|c| - 1] && line[|line| - 2] == c[|c| - 2];
  }

  // ----- escapes

  /** How many backslashes stand directly before a position. */
  function BackslashesBefore(s: string, i: nat): nat
    requires i <= |s|
  {
    if i > 0 && s[i - 1] == '\\' then 1 + BackslashesBefore(s, i - 1) else 0
  }

  function EscapedAt(s: string, i: nat): bool
    requires i <= |s|
  {
    i > 0 && EscapeAfter(s[i - 1], EscapedAt(s, i - 1))
  }

  lemma {:induction false} EscapedIffOdd(s: string, i: nat)
    requires i <= |s|
    ensures EscapedAt(s, i) <==> BackslashesBefore(s, i) % 2 == 1
    decreases i
  {
    if i > 0 {
      EscapedIffOdd(s, i - 1);
    }
  }

  lemma {:induction false} QuotedFrom(s: string, q: char, i: nat)
    requires i <= |s|
    ensures EscapedBody(s[i..], q, EscapedAt(s, i)) <==> forall j :: i <= j < |s| && s[j] == q ==> EscapedAt(s, j)
    ensures QuotedBody(s[i..], q, EscapedAt(s, i))
       <==> !EscapedAt(s, |s|) && forall j :: i <= j < |s| && s[j] == q ==> EscapedAt(s, j)
    decreases |s| - i
  {
    if i < |s| {
      QuotedFrom(s, q, i + 1);
      assert s[i..][1..] == s[i + 1..];
    }
  }

  /**
   What may stand in a literal: every quote in it comes behind an odd number of backslashes, and an even
   number comes before the closing one.
   */
  lemma QuotedBodyIff(body: string, q: char)
    ensures EscapedBody(body, q, false) <==> forall j :: 0 <= j < |body| && body[j] == q ==> BackslashesBefore(body, j) % 2 == 1
    ensures QuotedBody(body, q, false)
       <==> && BackslashesBefore(body, |body|) % 2 == 0
            && forall j :: 0 <= j < |body| && body[j] == q ==> BackslashesBefore(body, j) % 2 == 1
  {
    QuotedFrom(body, q, 0);
    assert body[0..] == body;
    forall j | 0 <= j <= |body|
      ensures EscapedAt(body, j) <==> BackslashesBefore(body, j) % 2 == 1
    {
      EscapedIffOdd(body, j);
    }
  }
}
