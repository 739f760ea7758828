/** Blanking out comments, literals and "#if 0" regions of C-like text. */
module Strip {
  import opened Wrappers
  import opened LinkedList
  import opened Lines

  // ----- one line

  /** What the scan is waiting for the end of. */
  datatype Want = Nothing | IfZero | Block | SQuote | DQuote | LineComment

  /** What is carried from one line to the next. */
  datatype State = State(want: Want, ifcount: int)

  const START := State(Nothing, 0)

  predicate Blank(c: char) { c == ' ' || c == '\t' }

  /** The character at a position; a NUL follows the last one. */
  function CharAt(s: string, i: nat): char { if i < |s| then s[i] else '\0' }

  function Drop(s: string, n: nat): string { if n <= |s| then s[n..] else "" }

  function Blanks(s: string): (n: nat)
    ensures n <= |s| && !Blank(CharAt(s, n)) && forall i :: 0 <= i < n ==> Blank(s[i])
  {
    if |s| > 0 && Blank(s[0]) then 1 + Blanks(s[1..]) else 0
  }

  function Unindented(s: string): string { s[Blanks(s)..] }

  /** A preprocessor line whose directive begins with a name. */
  predicate Directive(line: string, name: string) {
    var s := Unindented(line);
    |s| > 0 && s[0] == '#' && name <= Unindented(s[1..])
  }

  /** A line comment goes on if a single backslash ends the line. */
  function Continued(line: string): Want {
    if |line| > 3 && line[|line| - 1] == '\\' && line[|line| - 2] != '\\' then LineComment else Nothing
  }

  /** The effect of a character: the rest of the line is a comment, or the scan goes on some characters later. */
  datatype Look = Cut | Skip(n: nat, want: Want, text: string)

  function LookAt(s: string, want: Want, esc: bool): (look: Look)
    requires |s| > 0
    ensures look.Skip? ==> look.n <= |s| && |look.text| <= look.n && (look.text == "" || look.want != Nothing)
    ensures look.Skip? && want != IfZero ==> look.want != IfZero
  {
    var c := s[0];
    if Blank(c) then Skip(0, want, "")
    else
      match want
      case LineComment => Cut
      case IfZero => Skip(0, want, "")
      case Block => if c == '*' && CharAt(s, 1) == '/' then Skip(2, Nothing, "") else Skip(0, want, "")
      case SQuote => if c == '\'' && !esc then Skip(1, Nothing, "") else Skip(0, want, "")
      case DQuote => if c == '"' && !esc then Skip(1, Nothing, "") else Skip(0, want, "")
      case Nothing =>
        if c == '\'' then Skip(0, SQuote, "")
        else if c == '"' then Skip(0, DQuote, "")
        else if c == '/' && CharAt(s, 1) == '*' then Skip(1, Block, " ")
        else if c == '/' && CharAt(s, 1) == '/' then Cut
        else Skip(0, want, "")
  }

  /** The text one look leaves, with the character where it stopped when nothing is waited for. */
  function Left(s: string, look: Look): string
    requires look.Skip?
  {
    look.text + if look.want == Nothing && CharAt(s, look.n) != '\0' then [CharAt(s, look.n)] else ""
  }

  function EscapeAfter(c: char, esc: bool): bool { c == '\\' && !esc }

  datatype Scanned = Scanned(want: Want, text: string)

  /** What is left of the rest of a line; cont is what is wanted next if that rest turns out to hold a line comment. */
  function Rest(s: string, want: Want, esc: bool, cont: Want): Scanned
    decreases |s|
  {
    if |s| == 0 then Scanned(want, "")
    else
      match LookAt(s, want, esc)
      case Cut => Scanned(cont, "")
      case Skip(n, w, text) => Ahead(Left(s, LookAt(s, want, esc)), Rest(Drop(s, n + 1), w, EscapeAfter(CharAt(s, n), esc), cont))
  }

  function Ahead(text: string, next: Scanned): Scanned { Scanned(next.want, text + next.text) }

  lemma RestStep(s: string, want: Want, esc: bool, cont: Want, look: Look)
    requires |s| > 0 && look == LookAt(s, want, esc)
    ensures Rest(s, want, esc, cont) == RestAfter(s, look, esc, cont)
  {
  }

  function RestAfter(s: string, look: Look, esc: bool, cont: Want): Scanned
    requires |s| > 0
  {
    if look.Cut? then Scanned(cont, "")
    else Ahead(Left(s, look), Rest(Drop(s, look.n + 1), look.want, EscapeAfter(CharAt(s, look.n), esc), cont))
  }

  datatype Stripped = Stripped(state: State, text: string)

  /** One line's effect: the state it leaves and its text, which is empty if the line is dropped. */
  function Line(st: State, line: string): Stripped {
    if st.want == IfZero then
      var n := st.ifcount + if Directive(line, "if") then 1 else if Directive(line, "endif") then -1 else 0;
      Stripped(State(if LeavesIfZero(line, n) then Nothing else IfZero, n), "")
    else if st.want == Nothing && Directive(line, "if 0") then Stripped(State(IfZero, st.ifcount + 1), "")
    else
      var r := Rest(Unindented(line), st.want, false, Continued(line));
      Stripped(State(r.want, st.ifcount), if r.text == "" then "" else r.text + "\n")
  }

  /** The count is only looked at on preprocessor lines. */
  predicate LeavesIfZero(line: string, n: int) { n == 0 && CharAt(line, Blanks(line)) == '#' }

  /** Line after line: the state at the end and all the text that is kept. */
  function Run(step: (State, string) -> Stripped, st: State, lines: seq<string>): Stripped {
    if |lines| == 0 then Stripped(st, "")
    else
      var r := Run(step, st, lines[..|lines| - 1]);
      var next := step(r.state, lines[|lines| - 1]);
      Stripped(next.state, r.text + next.text)
  }

  function Cleaned(st: State, lines: seq<string>): Stripped { Run(Line, st, lines) }

  lemma {:induction false} RunConcat(step: (State, string) -> Stripped, st: State, a: seq<string>, b: seq<string>)
    ensures var first := Run(step, st, a);
            var second := Run(step, first.state, b);
            Run(step, st, a + b) == Stripped(second.state, first.text + second.text)
    decreases |b|
  {
    if |b| == 0 {
      assert a + b == a;
      assert Run(step, st, a).text + "" == Run(step, st, a).text;
    } else {
      var n := |b| - 1;
      var shorter := a + b[..n];
      assert (a + b)[..|a| + n] == shorter;
      RunConcat(step, st, a, b[..n]);
      var first := Run(step, st, a);
      var second := Run(step, first.state, b[..n]);
      Regroup(first.text, second.text, step(second.state, b[n]).text);
    }
  }

  lemma Regroup(a: string, b: string, c: string)
    ensures (a + b) + c == a + (b + c)
  {
  }

  // ----- the size of a line

  /** What is left is never longer than what was read, so it fits the line's buffer with newline and NUL. */
  lemma {:induction false} RestIsNoLonger(s: string, want: Want, esc: bool, cont: Want)
    ensures |Rest(s, want, esc, cont).text| <= |s|
    decreases |s|
  {
    if |s| > 0 && LookAt(s, want, esc).Skip? {
      var look := LookAt(s, want, esc);
      RestIsNoLonger(Drop(s, look.n + 1), look.want, EscapeAfter(CharAt(s, look.n), esc), cont);
    }
  }

  lemma LineFitsBuffer(st: State, line: string)
    ensures |Line(st, line).text| <= |line| + 1
  {
    RestIsNoLonger(Unindented(line), st.want, false, Continued(line));
  }

  // ----- "#if 0" regions

  lemma {:induction false} RestLeavesIfZeroAlone(s: string, want: Want, esc: bool, cont: Want)
    requires want != IfZero && cont != IfZero
    ensures Rest(s, want, esc, cont).want != IfZero
    decreases |s|
  {
    if |s| > 0 {
      var look := LookAt(s, want, esc);
      RestStep(s, want, esc, cont, look);
      if look.Skip? {
        RestLeavesIfZeroAlone(Drop(s, look.n + 1), look.want, EscapeAfter(CharAt(s, look.n), esc), cont);
      }
    }
  }

  /** At a line's start a region is being skipped exactly when the count of open conditionals is positive. */
  predicate Counting(st: State) { st.ifcount >= 0 && (st.want == IfZero <==> st.ifcount > 0) }

  lemma DirectiveIsHash(line: string, name: string)
    requires Directive(line, name)
    ensures CharAt(line, Blanks(line)) == '#'
  {
  }

  lemma LineKeepsCounting(st: State, line: string)
    requires Counting(st)
    ensures Counting(Line(st, line).state)
  {
    if st.want == IfZero {
      if Directive(line, "endif") {
        DirectiveIsHash(line, "endif");
      }
    } else {
      RestLeavesIfZeroAlone(Unindented(line), st.want, false, Continued(line));
    }
  }

  lemma {:induction false} RunKeepsCounting(lines: seq<string>)
    ensures Counting(Cleaned(START, lines).state)
  {
    if |lines| > 0 {
      RunKeepsCounting(lines[..|lines| - 1]);
      LineKeepsCounting(Cleaned(START, lines[..|lines| - 1]).state, lines[|lines| - 1]);
    }
  }

  /** Conditionals opened less conditionals closed. */
  function Depth(lines: seq<string>): int {
    if |lines| == 0 then 0
    else
      var line := lines[|lines| - 1];
      Depth(lines[..|lines| - 1]) + if Directive(line, "if") then 1 else if Directive(line, "endif") then -1 else 0
  }

  lemma IfIsNotEndif(line: string)
    ensures !(Directive(line, "if") && Directive(line, "endif"))
  {
    var s := Unindented(line);
    if Directive(line, "if") {
      assert Unindented(s[1..])[0] == "if"[0] == 'i';
      assert "endif"[0] == 'e';
    }
  }

  /** No line closes the last of n open conditionals. */
  predicate StaysOpen(n: int, lines: seq<string>) { forall k :: 0 <= k <= |lines| ==> n + Depth(lines[..k]) > 0 }

  lemma FewerStayOpen(n: int, lines: seq<string>)
    requires |lines| > 0 && StaysOpen(n, lines)
    ensures StaysOpen(n, lines[..|lines| - 1]) && n + Depth(lines) > 0
  {
    var fewer := lines[..|lines| - 1];
    assert forall k :: 0 <= k <= |fewer| ==> fewer[..k] == lines[..k];
    assert lines[..|lines|] == lines;
  }

  /** As long as no endif matches the "#if 0", every line is dropped and the count follows the depth. */
  lemma {:induction false} RegionIsSilent(n: int, lines: seq<string>)
    requires n > 0 && StaysOpen(n, lines)
    ensures Cleaned(State(IfZero, n), lines) == Stripped(State(IfZero, n + Depth(lines)), "")
    decreases |lines|
  {
    if |lines| > 0 {
      var m := |lines| - 1;
      FewerStayOpen(n, lines);
      RegionIsSilent(n, lines[..m]);
    }
  }

  /** An "#if 0", the lines up to the endif that matches it, and that endif. */
  predicate IfZeroRegion(region: seq<string>) {
    && |region| >= 2 && Directive(region[0], "if 0") && Directive(region[|region| - 1], "endif")
    && var body := region[1..|region| - 1]; Depth(body) == 0 && StaysOpen(1, body)
  }

  /** No line of such a region is kept, and what follows is read as if the region were not there. */
  lemma RegionIsRemoved(before: seq<string>, region: seq<string>, rest: seq<string>)
    requires Cleaned(START, before).state.want == Nothing && IfZeroRegion(region)
    ensures Cleaned(START, before + region + rest) == Cleaned(START, before + rest)
  {
    RunKeepsCounting(before);
    var body := region[1..|region| - 1];
    RegionAlone(region[0], body, region[|region| - 1]);
    assert region == [region[0]] + body + [region[|region| - 1]];
    NothingBetween(Line, START, before, region, rest);
  }

  lemma NothingBetween(step: (State, string) -> Stripped, st: State, a: seq<string>, b: seq<string>, c: seq<string>)
    requires var mid := Run(step, st, a).state; Run(step, mid, b) == Stripped(mid, "")
    ensures Run(step, st, a + b + c) == Run(step, st, a + c)
  {
    RunConcat(step, st, a, b);
    RunConcat(step, st, a + b, c);
    RunConcat(step, st, a, c);
    assert Run(step, st, a).text + "" == Run(step, st, a).text;
  }

  lemma RegionAlone(opening: string, body: seq<string>, closing: string)
    requires Directive(opening, "if 0") && Depth(body) == 0 && StaysOpen(1, body) && Directive(closing, "endif")
    ensures Cleaned(START, [opening] + body + [closing]) == Stripped(START, "")
  {
    var inside := State(IfZero, 1);
    RegionIsSilent(1, body);
    RegionEnds(opening, closing, inside);
    Bracketed(Line, START, opening, inside, body, closing);
  }

  lemma RegionEnds(opening: string, closing: string, inside: State)
    requires Directive(opening, "if 0") && Directive(closing, "endif") && inside == State(IfZero, 1)
    ensures Line(START, opening) == Stripped(inside, "") && Line(inside, closing) == Stripped(START, "")
  {
    IfIsNotEndif(closing);
    DirectiveIsHash(closing, "endif");
  }

  lemma Bracketed(step: (State, string) -> Stripped, st: State, opening: string, mid: State, body: seq<string>, closing: string)
    requires step(st, opening) == Stripped(mid, "") && step(mid, closing) == Stripped(st, "")
    requires Run(step, mid, body) == Stripped(mid, "")
    ensures Run(step, st, [opening] + body + [closing]) == Stripped(st, "")
  {
    RunOne(step, st, opening);
    RunOne(step, mid, closing);
    RunConcat(step, st, [opening], body);
    RunConcat(step, st, [opening] + body, [closing]);
  }

  lemma RunOne(step: (State, string) -> Stripped, st: State, line: string)
    ensures Run(step, st, [line]) == step(st, line)
  {
    assert [line][..0] == [];
    assert "" + step(st, line).text == step(st, line).text;
  }

  // ----- the scan over a line's buffers

  method SkipBlanks(line: string, from: nat) returns (i: nat)
    requires from <= |line|
    ensures i == from + Blanks(line[from..]) <= |line|
  {
    i := from;
    while Blank(CharAt(line, i))
      invariant from <= i <= |line|
      invariant from + Blanks(line[from..]) == i + Blanks(line[i..])
      decreases |line| - i
    {
      assert line[i..][1..] == line[i + 1..];
      i := i + 1;
    }
  }

  /** Whether the line, which begins at i with "#", has a directive that begins with a name. */
  method HasDirective(line: string, i: nat, name: string) returns (has: bool)
    requires i == Blanks(line) && CharAt(line, i) == '#'
    ensures has == Directive(line, name)
  {
    var tmp := SkipBlanks(line, i + 1);
    assert Unindented(line)[1..] == line[i + 1..];
    assert Unindented(line[i + 1..]) == line[tmp..];
    has := name <= line[tmp..];
  }

  /** A scan has come to a position having left some text so far, and the total is still the same. */
  predicate Scanning(line: string, i: nat, want: Want, esc: bool, total: Scanned, sofar: string) {
    total == Ahead(sofar, Rest(Drop(line, i), want, esc, Continued(line)))
  }

  /** One look's outcome: where it stopped, what is wanted there, and the text kept so far. */
  predicate Moved(line: string, i: nat, want: Want, esc: bool, sofar: string, j: nat, want': Want, text: string) {
    && i < |line|
    && var look := LookAt(line[i..], want, esc);
       look.Skip? && j == i + look.n && want' == look.want && text == sofar + Left(line[i..], look)
  }

  lemma ScanMoved(line: string, i: nat, want: Want, esc: bool, total: Scanned, sofar: string, j: nat, want': Want, text: string)
    requires Moved(line, i, want, esc, sofar, j, want', text) && Scanning(line, i, want, esc, total, sofar)
    ensures Scanning(line, j + 1, want', EscapeAfter(CharAt(line, j), esc), total, text)
  {
    var s, look, cont := line[i..], LookAt(line[i..], want, esc), Continued(line);
    RestStep(s, want, esc, cont, look);
    var next := Rest(Drop(line, j + 1), want', EscapeAfter(CharAt(line, j), esc), cont);
    assert Drop(s, look.n + 1) == Drop(line, j + 1) && CharAt(s, look.n) == CharAt(line, j);
    AheadTwice(sofar, Left(s, look), next);
  }

  lemma ScanCut(line: string, i: nat, want: Want, esc: bool, total: Scanned, sofar: string)
    requires i < |line| && LookAt(line[i..], want, esc).Cut? && Scanning(line, i, want, esc, total, sofar)
    ensures total == Scanned(Continued(line), sofar)
  {
    RestStep(line[i..], want, esc, Continued(line), LookAt(line[i..], want, esc));
  }

  lemma AheadTwice(a: string, b: string, next: Scanned)
    ensures Ahead(a, Ahead(b, next)) == Ahead(a + b, next)
  {
    Regroup(a, b, next.text);
  }

  lemma ScanEnd(line: string, i: nat, want: Want, esc: bool, total: Scanned, sofar: string)
    requires Scanning(line, i, want, esc, total, sofar) && i >= |line|
    ensures total == Scanned(want, sofar)
  {
  }

  /**
   The character scan, writing what it keeps to the buffer. It never writes beyond what it has read, so
   the newline and the NUL still fit.
   */
  method ScanLine(line: string, first: nat, want0: Want, repl: array<char>, ghost total: Scanned) returns (want: Want, x: nat)
    requires first <= |line| && repl.Length == |line| + 2 && want0 != IfZero
    requires Scanning(line, first, want0, false, total, "")
    modifies repl
    ensures x <= |line| && Scanned(want, repl[..x]) == total
  {
    var i, esc := first, false;
    want, x := want0, 0;
    while i < |line|
      invariant x <= i <= |line| + 1 && x <= |line| && want != IfZero
      invariant Scanning(line, i, want, esc, total, repl[..x])
    {
      var cut;
      i, want, esc, x, cut := ScanOne(line, i, want, esc, repl, x, total);
      if cut {
        want := Continued(line);
        return;
      }
    }
    ScanEnd(line, i, want, esc, total, repl[..x]);
  }

  method ScanOne(line: string, i0: nat, want0: Want, esc0: bool, repl: array<char>, x0: nat, ghost total: Scanned)
    returns (i: nat, want: Want, esc: bool, x: nat, cut: bool)
    requires i0 < |line| && x0 <= i0 && repl.Length == |line| + 2 && want0 != IfZero
    requires Scanning(line, i0, want0, esc0, total, repl[..x0])
    modifies repl
    ensures i0 < i <= |line| + 1 && x <= i && x <= |line| && want != IfZero
    ensures if cut then total == Scanned(Continued(line), repl[..x]) else Scanning(line, i, want, esc, total, repl[..x])
  {
    ghost var sofar := repl[..x0];
    var j;
    j, want, x, cut := KeepOne(line, i0, want0, esc0, repl, x0);
    i, esc := j + 1, EscapeAfter(CharAt(line, j), esc0);
    if cut {
      ScanCut(line, i0, want0, esc0, total, sofar);
    } else {
      ScanMoved(line, i0, want0, esc0, total, sofar, j, want, repl[..x]);
    }
  }

  /** Looks at one character and keeps the one where that leads when nothing is wanted there. */
  method KeepOne(line: string, i: nat, want0: Want, esc: bool, repl: array<char>, x0: nat)
    returns (j: nat, want: Want, x: nat, cut: bool)
    requires i < |line| && x0 <= i && repl.Length == |line| + 2 && want0 != IfZero
    modifies repl
    ensures i <= j <= |line| && x <= j + 1 && x <= |line| && want != IfZero
    ensures if cut then LookAt(line[i..], want0, esc).Cut? && repl[..x] == old(repl[..x0])
            else Moved(line, i, want0, esc, old(repl[..x0]), j, want, repl[..x])
  {
    j, want, x, cut := LookOne(line, i, want0, esc, repl, x0);
    ghost var left := repl[..x];
    if !cut && want == Nothing && CharAt(line, j) != '\0' {
      repl[x] := line[j];
      x := x + 1;
      assert repl[..x] == left + [line[j]];
    }
  }

  /** Looks at one character: where it leads, what is wanted then, and whether a line comment begins. */
  method LookOne(line: string, i: nat, want0: Want, esc: bool, repl: array<char>, x0: nat)
    returns (j: nat, want: Want, x: nat, cut: bool)
    requires i < |line| && x0 <= i && repl.Length == |line| + 2 && want0 != IfZero
    modifies repl
    ensures i <= j <= |line| && x <= j && want != IfZero
    ensures var look := LookAt(line[i..], want0, esc);
            cut == look.Cut? && repl[..x] == old(repl[..x0]) + (if look.Skip? then look.text else "")
            && (look.Skip? ==> j == i + look.n && want == look.want)
  {
    j, want, x, cut := i, want0, x0, false;
    var c := line[i];
    if Blank(c) {
    } else if want != Nothing {
      if want == LineComment {
        cut := true;
      } else if want == Block && c == '*' {
        if CharAt(line, i + 1) == '/' {
          want := Nothing;
          j := i + 2;
        }
      } else if (want == SQuote && c == '\'') || (want == DQuote && c == '"') {
        if !esc {
          j := i + 1;
          want := Nothing;
        }
      }
    } else {
      match c
      case '\'' => want := SQuote;
      case '"' => want := DQuote;
      case '/' =>
        if CharAt(line, i + 1) == '*' {
          want := Block;
          repl[x] := ' ';
          x := x + 1;
          j := i + 1;
        } else if CharAt(line, i + 1) == '/' {
          cut := true;
        }
      case _ =>
    }
  }

  method StripLine(st: State, line: string) returns (r: Stripped)
    ensures r == Line(st, line)
  {
    var i := SkipBlanks(line, 0);
    assert line[0..] == line;
    if st.want == IfZero {
      var ifcount, want := st.ifcount, st.want;
      if CharAt(line, i) == '#' {
        var opens := HasDirective(line, i, "if");
        var closes := HasDirective(line, i, "endif");
        if opens {
          ifcount := ifcount + 1;
        } else if closes {
          ifcount := ifcount - 1;
        }
        if ifcount == 0 {
          want := Nothing;
        }
      }
      return Stripped(State(want, ifcount), "");
    }
    if st.want == Nothing && CharAt(line, i) == '#' {
      var zero := HasDirective(line, i, "if 0");
      if zero {
        return Stripped(State(IfZero, st.ifcount + 1), "");
      }
    }
    var repl := new char[|line| + 2];
    ghost var total := Rest(Unindented(line), st.want, false, Continued(line));
    assert Drop(line, i) == Unindented(line) && Ahead("", total) == total;
    var want, x := ScanLine(line, i, st.want, repl, total);
    ghost var text := repl[..x];
    if x > 0 {
      repl[x] := '\n';
      repl[x + 1] := '\0';
      assert repl[..x + 1] == text + "\n";
      r := Stripped(State(want, st.ifcount), repl[..x + 1]);
    } else {
      r := Stripped(State(want, st.ifcount), "");
    }
  }

  /** The whole text, line by line. */
  method HandleCstyle(text: string) returns (cleaned: string)
    requires '\0' !in text && Unterminated(text) == ""
    ensures cleaned == Cleaned(START, TerminatedLines(text)).text
  {
    cleaned := "";
    var st := START;
    var data := text;
    ghost var done: seq<string> := [];
    assert TerminatedLines(text) == [] + TerminatedLines(text);
    while |data| > 0
      invariant TerminatedLines(text) == done + TerminatedLines(data) && Unterminated(data) == ""
      invariant Stripped(st, cleaned) == Cleaned(START, done)
      decreases |data|
    {
      var n := FindNewline(data);
      NoLineIf(data, n);
      var line, rest := data[..n], data[n + 1..];
      NextLine(data, line, rest, n);
      MoreLines(TerminatedLines(text), done, line, TerminatedLines(data), TerminatedLines(rest));
      var r := StripLine(st, line);
      assert (done + [line])[..|done|] == done;
      st, cleaned := r.state, cleaned + r.text;
      done := done + [line];
      data := rest;
    }
    assert done == TerminatedLines(text);
  }

  method FindNewline(s: string) returns (n: nat)
    ensures n == LineLength(s)
  {
    n := 0;
    while n < |s| && s[n] != '\n'
      invariant 0 <= n <= |s| && forall i :: 0 <= i < n ==> s[i] != '\n'
    {
      n := n + 1;
    }
    LineLengthIs(s, n);
  }

  lemma NoLineIf(s: string, n: nat)
    requires |s| > 0 && n == LineLength(s) && Unterminated(s) == ""
    ensures n < |s|
  {
    if n == |s| {
      NoLine(s);
    }
  }

  lemma MoreLines(all: seq<string>, done: seq<string>, line: string, left: seq<string>, rest: seq<string>)
    requires all == done + left && left == [line] + rest
    ensures all == done + [line] + rest
  {
  }

  /** A buffer's lines joined with newlines, stripped if the language has C-like comments. */
  method StripComments(lines: LinkedList<string>, cLike: bool) returns (joined: string)
    requires lines.Valid() && NewlineFree(lines.Items) && forall k :: 0 <= k < |lines.Items| ==> '\0' !in lines.Items[k]
    ensures joined == if cLike then Cleaned(START, lines.Items).text else Joined(lines.Items, "\n")
  {
    joined := JoinBstrings(lines, Some('\n'));
    if cLike {
      LinesOfWritten(lines.Items, "");
      assert Joined(lines.Items, "\n") + "" == joined;
      NoNulJoined(lines.Items);
      joined := HandleCstyle(joined);
    }
  }
}
