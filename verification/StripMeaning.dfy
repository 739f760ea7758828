/** What the stripping keeps of a line made of code, literals and comments. */
module StripMeaning {
  import opened Strip

  /** What a line has between two stretches of code. */
  datatype Skipped = Quoted(quote: char, body: string) | Comment(body: string)

  /** A stretch of code and what follows it. */
  datatype Part = Part(code: string, skipped: Skipped)

  /** What follows the last stretch of code. */
  datatype Ending =
    | LineEnds
    | CommentToEnd(text: string)
    | CommentStaysOpen(body: string)
    | LiteralStaysOpen(quote: char, body: string)

  function Delimited(skipped: Skipped): string {
    match skipped
    case Quoted(q, body) => [q] + body + [q]
    case Comment(body) => "/*" + body + "*/"
  }

  function Tail(end: Ending): string {
    match end
    case LineEnds => ""
    case CommentToEnd(text) => "//" + text
    case CommentStaysOpen(body) => "/*" + body
    case LiteralStaysOpen(q, body) => [q] + body
  }

  function Replacement(skipped: Skipped): string { if skipped.Comment? then " " else "" }

  function TailReplacement(end: Ending): string { if end.CommentStaysOpen? then " " else "" }

  /** What is wanted behind the line; cont if a line comment ended it. */
  function TailWant(end: Ending, cont: Want): Want {
    match end
    case LineEnds => Nothing
    case CommentToEnd(_) => cont
    case CommentStaysOpen(_) => Block
    case LiteralStaysOpen(q, _) => WantFor(q)
  }

  function WantFor(q: char): Want { if q == '"' then DQuote else SQuote }

  /** The line: every part, then the last stretch of code, then the ending. */
  function Written(parts: seq<Part>, last: string, end: Ending): string {
    if |parts| == 0 then last + Tail(end)
    else parts[0].code + (Delimited(parts[0].skipped) + Written(parts[1..], last, end))
  }

  /** The code, with a blank for every comment but one that runs to the end. */
  function Kept(parts: seq<Part>, last: string, end: Ending): string {
    if |parts| == 0 then last + TailReplacement(end)
    else parts[0].code + (Replacement(parts[0].skipped) + Kept(parts[1..], last, end))
  }

  /** No quotes, and slashes only where they begin no comment, given the character that follows. */
  predicate Plain(s: string, next: char) {
    forall i :: 0 <= i < |s| ==>
      s[i] != '\'' && s[i] != '"' && s[i] != '\0' && (s[i] == '/' ==> FollowedBy(s, i, next) != '/' && FollowedBy(s, i, next) != '*')
  }

  function FollowedBy(s: string, i: nat, next: char): char { if i + 1 < |s| then s[i + 1] else next }

  /** The quote stands only escaped. */
  predicate EscapedBody(body: string, q: char, esc: bool) {
    |body| > 0 ==> (body[0] == q ==> esc) && EscapedBody(body[1..], q, EscapeAfter(body[0], esc))
  }

  /** Moreover no backslash escapes the closing one. */
  predicate QuotedBody(body: string, q: char, esc: bool) {
    if |body| == 0 then !esc
    else (body[0] == q ==> esc) && QuotedBody(body[1..], q, EscapeAfter(body[0], esc))
  }

  predicate CommentBody(body: string) {
    forall i :: 0 <= i < |body| - 1 ==> !(body[i] == '*' && body[i + 1] == '/')
  }

  predicate IsQuote(q: char) { q == '\'' || q == '"' }

  predicate ProperSkipped(skipped: Skipped) {
    match skipped
    case Quoted(q, body) => IsQuote(q) && QuotedBody(body, q, false)
    case Comment(body) => CommentBody(body)
  }

  predicate ProperTail(end: Ending) {
    match end
    case LineEnds => true
    case CommentToEnd(_) => true
    case CommentStaysOpen(body) => CommentBody(body)
    case LiteralStaysOpen(q, body) => IsQuote(q) && EscapedBody(body, q, false)
  }

  /** The parts are what a compiler would take them for. */
  predicate Lexed(parts: seq<Part>, last: string, end: Ending) {
    if |parts| == 0 then Plain(last, CharAt(Tail(end), 0)) && ProperTail(end)
    else Plain(parts[0].code, Delimited(parts[0].skipped)[0]) && ProperSkipped(parts[0].skipped) && Lexed(parts[1..], last, end)
  }

  /** Nothing delimited stands directly behind a closing delimiter; behind tells whether one precedes the text. */
  predicate Separated(parts: seq<Part>, last: string, end: Ending, behind: bool) {
    if |parts| == 0 then behind && last == "" ==> end.LineEnds?
    else (behind ==> parts[0].code != "") && Separated(parts[1..], last, end, true)
  }

  // ----- outside literals escapes do not matter

  lemma {:induction false} EscapeIsIrrelevant(s: string, a: bool, b: bool, cont: Want)
    ensures Rest(s, Nothing, a, cont) == Rest(s, Nothing, b, cont)
    decreases |s|
  {
    if |s| > 0 {
      var look := LookAt(s, Nothing, a);
      RestStep(s, Nothing, a, cont, look);
      RestStep(s, Nothing, b, cont, look);
      if look.Skip? && look.want == Nothing {
        EscapeIsIrrelevant(Drop(s, look.n + 1), EscapeAfter(CharAt(s, look.n), a), EscapeAfter(CharAt(s, look.n), b), cont);
      }
    }
  }

  /** The scan passes over one character without changing what is wanted. */
  lemma OneCharacter(c: char, s: string, want: Want, esc: bool, cont: Want, text: string)
    requires LookAt([c] + s, want, esc) == Skip(0, want, "")
    requires text == if want == Nothing && c != '\0' then [c] else ""
    ensures Rest([c] + s, want, esc, cont) == Ahead(text, Rest(s, want, EscapeAfter(c, esc), cont))
  {
    RestStep([c] + s, want, esc, cont, Skip(0, want, ""));
    assert Drop([c] + s, 1) == s;
    assert Left([c] + s, Skip(0, want, "")) == text;
  }

  lemma HeadOf(s: string, rest: string)
    requires |s| > 0
    ensures s + rest == [s[0]] + (s[1..] + rest) && [s[0]] + s[1..] == s
  {
  }

  lemma PlainTail(s: string, next: char)
    requires Plain(s, next) && |s| > 0
    ensures Plain(s[1..], next)
  {
    var t := s[1..];
    assert forall i :: 0 <= i < |t| ==> t[i] == s[i + 1] && FollowedBy(t, i, next) == FollowedBy(s, i + 1, next);
  }

  lemma {:induction false} PlainIsKept(s: string, rest: string, esc: bool, cont: Want)
    requires Plain(s, CharAt(rest, 0))
    ensures Rest(s + rest, Nothing, esc, cont) == Ahead(s, Rest(rest, Nothing, false, cont))
  {
    if |s| == 0 {
      assert s + rest == rest;
      EscapeIsIrrelevant(rest, esc, false, cont);
    } else {
      HeadOf(s, rest);
      PlainTail(s, CharAt(rest, 0));
      assert CharAt(s + rest, 1) == FollowedBy(s, 0, CharAt(rest, 0));
      OneCharacter(s[0], s[1..] + rest, Nothing, esc, cont, [s[0]]);
      PlainIsKept(s[1..], rest, EscapeAfter(s[0], esc), cont);
      AheadTwice([s[0]], s[1..], Rest(rest, Nothing, false, cont));
    }
  }

  // ----- delimited text

  /** What a scan makes of the text behind a closing delimiter. */
  function Behind(rest: string, cont: Want): Scanned {
    if |rest| == 0 then Scanned(Nothing, "") else Ahead([rest[0]], Rest(rest[1..], Nothing, false, cont))
  }

  /** The closing delimiter and the unexamined character behind it. */
  lemma Closes(close: string, rest: string, want: Want, esc: bool, cont: Want)
    requires 0 < |close| && LookAt(close + rest, want, esc) == Skip(|close|, Nothing, "")
    requires |rest| > 0 ==> rest[0] != '\0'
    ensures Rest(close + rest, want, esc, cont) == Behind(rest, cont)
  {
    var s, look := close + rest, Skip(|close|, Nothing, "");
    RestStep(s, want, esc, cont, look);
    AfterClose(close, rest, look, esc, cont);
  }

  lemma AfterClose(close: string, rest: string, look: Look, esc: bool, cont: Want)
    requires |close| > 0 && look == Skip(|close|, Nothing, "") && (|rest| > 0 ==> rest[0] != '\0')
    ensures RestAfter(close + rest, look, esc, cont) == Behind(rest, cont)
  {
    var s, n := close + rest, |close|;
    if |rest| > 0 {
      assert CharAt(s, n) == rest[0] && Drop(s, n + 1) == rest[1..];
      assert Left(s, look) == [rest[0]];
      EscapeIsIrrelevant(rest[1..], EscapeAfter(rest[0], esc), false, cont);
    } else {
      assert Drop(s, n + 1) == "" && CharAt(s, n) == '\0';
      assert Left(s, look) == "";
    }
  }

  lemma {:induction false} QuotedIsSkipped(body: string, q: char, rest: string, esc: bool, cont: Want)
    requires IsQuote(q) && QuotedBody(body, q, esc) && (|rest| > 0 ==> rest[0] != '\0')
    ensures Rest(body + ([q] + rest), WantFor(q), esc, cont) == Behind(rest, cont)
  {
    if |body| == 0 {
      assert body + ([q] + rest) == [q] + rest;
      Closes([q], rest, WantFor(q), esc, cont);
    } else {
      HeadOf(body, [q] + rest);
      OneCharacter(body[0], body[1..] + ([q] + rest), WantFor(q), esc, cont, "");
      QuotedIsSkipped(body[1..], q, rest, EscapeAfter(body[0], esc), cont);
      assert "" + Behind(rest, cont).text == Behind(rest, cont).text;
    }
  }

  lemma {:induction false} CommentIsSkipped(body: string, rest: string, esc: bool, cont: Want)
    requires CommentBody(body) && (|rest| > 0 ==> rest[0] != '\0')
    ensures Rest(body + ("*/" + rest), Block, esc, cont) == Behind(rest, cont)
  {
    if |body| == 0 {
      assert body + ("*/" + rest) == "*/" + rest;
      assert CharAt("*/" + rest, 1) == '/';
      Closes("*/", rest, Block, esc, cont);
    } else {
      var s := body[1..] + ("*/" + rest);
      HeadOf(body, "*/" + rest);
      assert s[0] == if |body| > 1 then body[1] else '*';
      OneCharacter(body[0], s, Block, esc, cont, "");
      CommentIsSkipped(body[1..], rest, EscapeAfter(body[0], esc), cont);
      assert "" + Behind(rest, cont).text == Behind(rest, cont).text;
    }
  }

  /** Delimited text is replaced by a blank or by nothing. */
  lemma SkippedIsReplaced(skipped: Skipped, rest: string, cont: Want)
    requires ProperSkipped(skipped) && (|rest| > 0 ==> rest[0] != '\0')
    ensures Rest(Delimited(skipped) + rest, Nothing, false, cont) == Ahead(Replacement(skipped), Behind(rest, cont))
  {
    match skipped
    case Quoted(q, body) =>
      var s := body + ([q] + rest);
      assert Delimited(skipped) + rest == [q] + s;
      QuoteOpens(q, s, cont);
      QuotedIsSkipped(body, q, rest, false, cont);
    case Comment(body) =>
      var s := body + ("*/" + rest);
      assert Delimited(skipped) + rest == "/*" + s;
      CommentOpens(s, cont);
      CommentIsSkipped(body, rest, false, cont);
  }

  lemma QuoteOpens(q: char, s: string, cont: Want)
    requires IsQuote(q)
    ensures Rest([q] + s, Nothing, false, cont) == Ahead("", Rest(s, WantFor(q), false, cont))
  {
    RestStep([q] + s, Nothing, false, cont, Skip(0, WantFor(q), ""));
    assert Drop([q] + s, 1) == s;
  }

  lemma CommentOpens(s: string, cont: Want)
    ensures Rest("/*" + s, Nothing, false, cont) == Ahead(" ", Rest(s, Block, false, cont))
  {
    var t := "/*" + s;
    assert t[0] == '/' && CharAt(t, 1) == '*' && Drop(t, 2) == s;
    LineOpensComment(t, s, cont);
  }

  lemma LineOpensComment(t: string, s: string, cont: Want)
    requires |t| > 1 && t[0] == '/' && t[1] == '*' && Drop(t, 2) == s
    ensures Rest(t, Nothing, false, cont) == Ahead(" ", Rest(s, Block, false, cont))
  {
    var look := Skip(1, Block, " ");
    RestStep(t, Nothing, false, cont, look);
    assert Left(t, look) == " ";
  }

  lemma {:induction false} CommentGoesOn(body: string, esc: bool, cont: Want)
    requires CommentBody(body)
    ensures Rest(body, Block, esc, cont) == Scanned(Block, "")
  {
    if |body| > 0 {
      assert [body[0]] + body[1..] == body;
      OneCharacter(body[0], body[1..], Block, esc, cont, "");
      CommentGoesOn(body[1..], EscapeAfter(body[0], esc), cont);
    }
  }

  lemma CommentTail(body: string, n: nat)
    requires CommentBody(body) && n <= |body|
    ensures CommentBody(body[n..])
  {
    var t := body[n..];
    assert forall i :: 0 <= i < |t| ==> t[i] == body[i + n];
  }

  lemma {:induction false} LiteralGoesOn(body: string, q: char, esc: bool, cont: Want)
    requires IsQuote(q) && EscapedBody(body, q, esc)
    ensures Rest(body, WantFor(q), esc, cont) == Scanned(WantFor(q), "")
  {
    if |body| > 0 {
      assert [body[0]] + body[1..] == body;
      OneCharacter(body[0], body[1..], WantFor(q), esc, cont, "");
      LiteralGoesOn(body[1..], q, EscapeAfter(body[0], esc), cont);
    }
  }

  /** An ending is replaced by a blank or by nothing, and leaves open what it opens. */
  lemma TailIsReplaced(end: Ending, cont: Want)
    requires ProperTail(end)
    ensures Rest(Tail(end), Nothing, false, cont) == Scanned(TailWant(end, cont), TailReplacement(end))
  {
    match end
    case LineEnds =>
    case CommentToEnd(text) => CommentCuts(Tail(end), cont);
    case CommentStaysOpen(body) =>
      CommentOpens(body, cont);
      CommentGoesOn(body, false, cont);
    case LiteralStaysOpen(q, body) =>
      QuoteOpens(q, body, cont);
      LiteralGoesOn(body, q, false, cont);
  }

  lemma CommentCuts(t: string, cont: Want)
    requires |t| > 1 && t[0] == '/' && t[1] == '/'
    ensures Rest(t, Nothing, false, cont) == Scanned(cont, "")
  {
    RestStep(t, Nothing, false, cont, Cut);
  }

  // ----- what is kept

  /** The scan of a text, from a fresh start or behind a closing delimiter. */
  function ScanFrom(s: string, behind: bool, cont: Want): Scanned {
    if behind then Behind(s, cont) else Rest(s, Nothing, false, cont)
  }

  lemma CodeThen(code: string, rest: string, behind: bool, cont: Want)
    requires Plain(code, CharAt(rest, 0)) && (behind ==> code != "")
    ensures ScanFrom(code + rest, behind, cont) == Ahead(code, Rest(rest, Nothing, false, cont))
  {
    if behind {
      HeadOf(code, rest);
      assert (code + rest)[1..] == code[1..] + rest;
      PlainTail(code, CharAt(rest, 0));
      PlainIsKept(code[1..], rest, false, cont);
      AheadTwice([code[0]], code[1..], Rest(rest, Nothing, false, cont));
    } else {
      PlainIsKept(code, rest, false, cont);
    }
  }

  lemma StartsProperly(parts: seq<Part>, last: string, end: Ending)
    requires Lexed(parts, last, end)
    ensures |Written(parts, last, end)| > 0 ==> Written(parts, last, end)[0] != '\0'
  {
  }

  /** One part in front of more text: its code is kept, its delimited text replaced, and the rest read behind it. */
  lemma PartThen(part: Part, rest: string, behind: bool, cont: Want)
    requires Plain(part.code, Delimited(part.skipped)[0]) && ProperSkipped(part.skipped)
    requires (behind ==> part.code != "") && (|rest| > 0 ==> rest[0] != '\0')
    ensures ScanFrom(part.code + (Delimited(part.skipped) + rest), behind, cont)
         == Ahead(part.code, Ahead(Replacement(part.skipped), Behind(rest, cont)))
  {
    CodeThen(part.code, Delimited(part.skipped) + rest, behind, cont);
    SkippedIsReplaced(part.skipped, rest, cont);
  }

  lemma {:induction false} CodeIsKept(parts: seq<Part>, last: string, end: Ending, behind: bool, cont: Want)
    requires Lexed(parts, last, end) && Separated(parts, last, end, behind)
    ensures ScanFrom(Written(parts, last, end), behind, cont) == Scanned(TailWant(end, cont), Kept(parts, last, end))
    decreases |parts|
  {
    if |parts| > 0 {
      var others := Written(parts[1..], last, end);
      StartsProperly(parts[1..], last, end);
      PartThen(parts[0], others, behind, cont);
      CodeIsKept(parts[1..], last, end, true, cont);
    } else if !(behind && last == "") {
      CodeThen(last, Tail(end), behind, cont);
      TailIsReplaced(end, cont);
    }
  }

  lemma {:induction false} KeptHasNoQuotes(parts: seq<Part>, last: string, end: Ending, q: char)
    requires Lexed(parts, last, end) && IsQuote(q)
    ensures q !in Kept(parts, last, end)
    decreases |parts|
  {
    if |parts| > 0 {
      KeptHasNoQuotes(parts[1..], last, end, q);
    }
  }

  lemma PrefixesCancel(a: string, b: string, x: string, y: string)
    ensures a + (b + x) == a + (b + y) ==> x == y
  {
    if a + (b + x) == a + (b + y) {
      assert x == (a + (b + x))[|a| + |b|..] && y == (a + (b + y))[|a| + |b|..];
    }
  }

  /** Delimited text directly behind a closing delimiter: its first character is kept, which differs from what should be. */
  lemma {:induction false} AdjacentIsMisread(parts: seq<Part>, last: string, end: Ending, behind: bool, cont: Want)
    requires Lexed(parts, last, end) && !Separated(parts, last, end, behind)
    ensures ScanFrom(Written(parts, last, end), behind, cont).text != Kept(parts, last, end)
    decreases |parts|
  {
    var s := Written(parts, last, end);
    if |parts| == 0 {
      assert Behind(s, cont).text[0] == s[0] == Tail(end)[0];
    } else if behind && parts[0].code == "" {
      var q := Delimited(parts[0].skipped)[0];
      assert Behind(s, cont).text[0] == s[0] == q;
      if IsQuote(q) {
        KeptHasNoQuotes(parts, last, end, q);
      } else {
        assert Kept(parts, last, end)[0] == ' ';
      }
    } else {
      var others := Written(parts[1..], last, end);
      StartsProperly(parts[1..], last, end);
      PartThen(parts[0], others, behind, cont);
      AdjacentIsMisread(parts[1..], last, end, true, cont);
      PrefixesCancel(parts[0].code, Replacement(parts[0].skipped), Behind(others, cont).text, Kept(parts[1..], last, end));
    }
  }

  /** Text is read as what it is if and only if nothing delimited directly follows a closing delimiter. */
  lemma KeptIffSeparated(parts: seq<Part>, last: string, end: Ending, behind: bool, cont: Want)
    requires Lexed(parts, last, end)
    ensures ScanFrom(Written(parts, last, end), behind, cont) == Scanned(TailWant(end, cont), Kept(parts, last, end))
       <==> Separated(parts, last, end, behind)
  {
    if Separated(parts, last, end, behind) {
      CodeIsKept(parts, last, end, behind, cont);
    } else {
      AdjacentIsMisread(parts, last, end, behind, cont);
    }
  }

  // ----- whole lines

  function AsLine(text: string): string { if text == "" then "" else text + "\n" }

  /** The line leaves this text and this want. */
  predicate LeftAs(st: State, line: string, want: Want, text: string) {
    Line(st, line) == Stripped(State(want, st.ifcount), AsLine(text))
  }

  /** The parts without the line's indentation. */
  function DedentedParts(parts: seq<Part>): seq<Part> {
    if |parts| == 0 then parts else [parts[0].(code := Unindented(parts[0].code))] + parts[1..]
  }

  function DedentedLast(parts: seq<Part>, last: string): string { if |parts| == 0 then Unindented(last) else last }

  lemma {:induction false} BlanksThen(s: string, rest: string)
    requires !Blank(CharAt(rest, 0))
    ensures Unindented(s + rest) == Unindented(s) + rest
  {
    if |s| > 0 {
      assert (s + rest)[1..] == s[1..] + rest;
      BlanksThen(s[1..], rest);
      if Blank(s[0]) {
        assert Unindented(s + rest) == (s + rest)[1..][Blanks(s[1..] + rest)..];
        assert Unindented(s) == s[1..][Blanks(s[1..])..];
      }
    } else {
      assert s + rest == rest;
    }
  }

  lemma PlainDedented(code: string, next: char)
    requires Plain(code, next)
    ensures Plain(Unindented(code), next)
  {
    var n := Blanks(code);
    var t := code[n..];
    assert forall i :: 0 <= i < |t| ==> t[i] == code[i + n] && FollowedBy(t, i, next) == FollowedBy(code, i + n, next);
  }

  lemma DedentedIsLexed(parts: seq<Part>, last: string, end: Ending)
    requires Lexed(parts, last, end)
    ensures Lexed(DedentedParts(parts), DedentedLast(parts, last), end)
    ensures Separated(DedentedParts(parts), DedentedLast(parts, last), end, false) <==> Separated(parts, last, end, false)
    ensures Unindented(Written(parts, last, end)) == Written(DedentedParts(parts), DedentedLast(parts, last), end)
  {
    if |parts| == 0 {
      PlainDedented(last, CharAt(Tail(end), 0));
      BlanksThen(last, Tail(end));
    } else {
      var first := parts[0];
      var rest := Delimited(first.skipped) + Written(parts[1..], last, end);
      PlainDedented(first.code, Delimited(first.skipped)[0]);
      assert rest[0] == Delimited(first.skipped)[0];
      BlanksThen(first.code, rest);
      assert DedentedParts(parts)[1..] == parts[1..];
    }
  }

  /**
   A line that begins with nothing open: its code is kept without the indentation, every comment that
   ends or stays open becomes a blank, literals and line comments are dropped, and open is what the
   line leaves open, if and only if nothing delimited directly follows a closing delimiter.
   */
  lemma LineIsKeptIffSeparated(st: State, parts: seq<Part>, last: string, end: Ending)
    requires st.want == Nothing && Lexed(parts, last, end) && !Directive(Written(parts, last, end), "if 0")
    ensures LeftAs(st, Written(parts, last, end), TailWant(end, Continued(Written(parts, last, end))),
                   Kept(DedentedParts(parts), DedentedLast(parts, last), end))
       <==> Separated(parts, last, end, false)
  {
    var cont := Continued(Written(parts, last, end));
    DedentedIsLexed(parts, last, end);
    KeptIffSeparated(DedentedParts(parts), DedentedLast(parts, last), end, false, cont);
    LineOfScan(st, Written(parts, last, end), TailWant(end, cont), Kept(DedentedParts(parts), DedentedLast(parts, last), end));
  }

  /** What a line that is no directive leaves tells what its scan leaves. */
  lemma LineOfScan(st: State, line: string, want: Want, text: string)
    requires st.want != IfZero && (st.want == Nothing ==> !Directive(line, "if 0"))
    ensures LeftAs(st, line, want, text) <==> Rest(Unindented(line), st.want, false, Continued(line)) == Scanned(want, text)
  {
    var r := Rest(Unindented(line), st.want, false, Continued(line));
    LinesDiffer(r.text, text);
  }

  lemma LinesDiffer(a: string, b: string)
    ensures AsLine(a) == AsLine(b) <==> a == b
  {
    if a != "" && b != "" && AsLine(a) == AsLine(b) {
      assert a == AsLine(a)[..|a|] && b == AsLine(b)[..|b|];
    }
  }

  // ----- lines that begin with something open

  /** The rest of a comment or literal that an earlier line opened. */
  datatype Opened = InComment(body: string) | InLiteral(quote: char, body: string)

  function Closed(open: Opened): string {
    match open
    case InComment(body) => body + "*/"
    case InLiteral(q, body) => body + [q]
  }

  function OpenedWant(open: Opened): Want { if open.InComment? then Block else WantFor(open.quote) }

  predicate ProperOpened(open: Opened) {
    match open
    case InComment(body) => CommentBody(body)
    case InLiteral(q, body) => IsQuote(q) && QuotedBody(body, q, false)
  }

  lemma {:induction false} QuotedDedented(body: string, q: char)
    requires QuotedBody(body, q, false)
    ensures QuotedBody(Unindented(body), q, false)
  {
    if |body| > 0 && Blank(body[0]) {
      QuotedDedented(body[1..], q);
      assert Unindented(body) == Unindented(body[1..]);
    }
  }

  lemma ClosedThen(open: Opened, rest: string, cont: Want)
    requires ProperOpened(open) && (|rest| > 0 ==> rest[0] != '\0')
    ensures Rest(Unindented(Closed(open) + rest), OpenedWant(open), false, cont) == Behind(rest, cont)
  {
    match open
    case InComment(body) =>
      assert Closed(open) + rest == body + ("*/" + rest);
      BlanksThen(body, "*/" + rest);
      CommentTail(body, Blanks(body));
      CommentIsSkipped(Unindented(body), rest, false, cont);
    case InLiteral(q, body) =>
      assert Closed(open) + rest == body + ([q] + rest);
      BlanksThen(body, [q] + rest);
      QuotedDedented(body, q);
      QuotedIsSkipped(Unindented(body), q, rest, false, cont);
  }

  /** A line that closes what was open: what follows is kept as above, and now the closing delimiter counts too. */
  lemma ClosingLineIsKeptIffSeparated(st: State, open: Opened, parts: seq<Part>, last: string, end: Ending)
    requires ProperOpened(open) && st.want == OpenedWant(open) && Lexed(parts, last, end)
    ensures LeftAs(st, Closed(open) + Written(parts, last, end),
                   TailWant(end, Continued(Closed(open) + Written(parts, last, end))), Kept(parts, last, end))
       <==> Separated(parts, last, end, true)
  {
    var line := Closed(open) + Written(parts, last, end);
    StartsProperly(parts, last, end);
    ClosedThen(open, Written(parts, last, end), Continued(line));
    KeptIffSeparated(parts, last, end, true, Continued(line));
    LineOfScan(st, line, TailWant(end, Continued(line)), Kept(parts, last, end));
  }

  /** Inside a block comment a line that does not close it is dropped, whatever else is on it. */
  lemma CommentLineIsDropped(st: State, line: string)
    requires st.want == Block && CommentBody(line)
    ensures Line(st, line) == Stripped(st, "")
  {
    CommentTail(line, Blanks(line));
    CommentGoesOn(Unindented(line), false, Continued(line));
  }

  lemma {:induction false} EscapedDedented(body: string, q: char)
    requires EscapedBody(body, q, false)
    ensures EscapedBody(Unindented(body), q, false)
  {
    if |body| > 0 && Blank(body[0]) {
      EscapedDedented(body[1..], q);
      assert Unindented(body) == Unindented(body[1..]);
    }
  }

  /** Inside a literal a line that does not close it is dropped. */
  lemma LiteralLineIsDropped(st: State, q: char, line: string)
    requires IsQuote(q) && st.want == WantFor(q) && EscapedBody(line, q, false)
    ensures Line(st, line) == Stripped(st, "")
  {
    EscapedDedented(line, q);
    LiteralGoesOn(Unindented(line), q, false, Continued(line));
  }

  /** A continued line comment takes the next line; a blank one leaves the matter open. */
  lemma ContinuedCommentIsDropped(st: State, line: string)
    requires st.want == LineComment
    ensures Line(st, line) == Stripped(State(if Unindented(line) == "" then LineComment else Continued(line), st.ifcount), "")
  {
    var t := Unindented(line);
    if |t| > 0 {
      assert t[0] == CharAt(line, Blanks(line));
      RestStep(t, LineComment, false, Continued(line), Cut);
    }
  }

  // ----- a misread line

  /** A literal directly behind another: its opening quote and its text are kept, and a literal is left open. */
  lemma AdjacentLiterals(body: string, other: string, cont: Want)
    requires QuotedBody(body, '"', false) && Plain(other, '"')
    ensures Rest("\"" + body + "\"\"" + other + "\"", Nothing, false, cont) == Scanned(DQuote, "\"" + other)
  {
    var rest := "\"" + (other + "\"");
    assert "\"" + body + "\"\"" + other + "\"" == Delimited(Quoted('"', body)) + rest;
    SkippedIsReplaced(Quoted('"', body), rest, cont);
    assert rest[1..] == other + "\"";
    PlainIsKept(other, "\"", false, cont);
    QuoteOpens('"', "", cont);
    assert ['"'] + "" == "\"";
    assert ['"'] + (other + ("" + "")) == "\"" + other;
  }

  lemma AdjacentLiteralsLine(body: string, other: string)
    requires QuotedBody(body, '"', false) && Plain(other, '"')
    ensures LeftAs(START, "\"" + body + "\"\"" + other + "\"", DQuote, "\"" + other)
  {
    var line := "\"" + body + "\"\"" + other + "\"";
    assert line[0] == '"' && Unindented(line) == line;
    AdjacentLiterals(body, other, Continued(line));
    LineOfScan(START, line, DQuote, "\"" + other);
  }

  /** Two literals side by side keep the second one's text and leave the line's end inside a literal. */
  lemma AdjacentLiteralsExample()
    ensures LeftAs(START, "\"a\"\"b\"", DQuote, "\"b")
  {
    AdjacentLiteralsLine("a", "b");
    assert "\"" + "a" + "\"\"" + "b" + "\"" == "\"a\"\"b\"" && "\"" + "b" == "\"b";
  }
}
