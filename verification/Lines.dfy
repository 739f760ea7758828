/** Lines of text: splitting a file into them, writing them out, and finding them in joined text. */
module Lines {
  import opened CStrings
  import opened LinkedList

  // ----- lines and text

  predicate OneLine(t: string) { forall i :: 0 <= i < |t| ==> t[i] != '\n' }

  function LineLength(t: string): (n: nat)
    ensures n <= |t| && (forall i :: 0 <= i < n ==> t[i] != '\n') && (n < |t| ==> t[n] == '\n')
  {
    if |t| == 0 || t[0] == '\n' then 0 else 1 + LineLength(t[1..])
  }

  /** The lines of a text that a newline ends. */
  function TerminatedLines(t: string): seq<string> {
    var n := LineLength(t);
    if n == |t| then [] else [t[..n]] + TerminatedLines(t[n + 1..])
  }

  /** What follows the last newline. */
  function Unterminated(t: string): string {
    var n := LineLength(t);
    if n == |t| then t else Unterminated(t[n + 1..])
  }

  predicate NewlineFree(lines: seq<string>) { forall k :: 0 <= k < |lines| ==> OneLine(lines[k]) }

  lemma {:induction false} JoinedConcat(a: seq<string>, b: seq<string>, sep: string)
    ensures Joined(a + b, sep) == Joined(a, sep) + Joined(b, sep)
    decreases |b|
  {
    if |b| == 0 {
      assert a + b == a;
    } else {
      var n := |b| - 1;
      assert (a + b)[..|a| + n] == a + b[..n];
      JoinedConcat(a, b[..n], sep);
    }
  }

  lemma JoinedCons(line: string, lines: seq<string>, sep: string)
    ensures Joined([line] + lines, sep) == line + sep + Joined(lines, sep)
  {
    JoinedConcat([line], lines, sep);
    assert [line][..0] == [];
    assert Joined([line], sep) == "" + line + sep == line + sep;
  }

  /** Lines and a tail make up a text. */
  predicate MakeUp(t: string, lines: seq<string>, tail: string) {
    Joined(lines, "\n") + tail == t && NewlineFree(lines) && OneLine(tail)
  }

  lemma LineAhead(line: string, lines: seq<string>, tail: string, rest: string, t: string)
    requires OneLine(line) && MakeUp(rest, lines, tail) && t == line + "\n" + rest
    ensures MakeUp(t, [line] + lines, tail)
  {
    JoinedCons(line, lines, "\n");
    LineThenRest(line, "\n", Joined(lines, "\n"), tail, rest);
  }

  lemma NoLineAhead(t: string)
    requires OneLine(t)
    ensures MakeUp(t, [], t)
  {
  }

  lemma LineThenRest(line: string, sep: string, joined: string, tail: string, rest: string)
    requires joined + tail == rest
    ensures (line + sep + joined) + tail == line + sep + rest
  {
  }

  /** Nothing is lost: the lines, each with its newline, and the tail are the text again. */
  lemma {:induction false} TextIsItsLines(t: string)
    ensures MakeUp(t, TerminatedLines(t), Unterminated(t))
    decreases |t|
  {
    var n := LineLength(t);
    if n < |t| {
      var line, rest := t[..n], t[n + 1..];
      TextIsItsLines(rest);
      NextLine(t, line, rest, n);
      LineAhead(line, TerminatedLines(rest), Unterminated(rest), rest, t);
    } else {
      NoLine(t);
      NoLineAhead(t);
    }
  }

  /** Written lines, and whatever tail without a newline follows them, are split into those lines and that tail. */
  lemma {:induction false} LinesOfWritten(lines: seq<string>, tail: string)
    requires NewlineFree(lines) && OneLine(tail)
    ensures TerminatedLines(Joined(lines, "\n") + tail) == lines
    ensures Unterminated(Joined(lines, "\n") + tail) == tail
    decreases |lines|
  {
    var t := Joined(lines, "\n") + tail;
    var n := LineLength(t);
    if |lines| == 0 {
      assert t == tail;
    } else {
      assert lines == [lines[0]] + lines[1..];
      JoinedCons(lines[0], lines[1..], "\n");
      var rest := Joined(lines[1..], "\n") + tail;
      assert t == lines[0] + "\n" + rest;
      FirstLine(lines[0], rest);
      LinesOfWritten(lines[1..], tail);
    }
  }

  lemma FirstLine(line: string, rest: string)
    requires OneLine(line)
    ensures var t := line + "\n" + rest;
            LineLength(t) == |line| < |t| && t[..|line|] == line && t[|line| + 1..] == rest
  {
    var t := line + "\n" + rest;
    assert t[|line|] == '\n';
    assert forall i :: 0 <= i < |line| ==> t[i] == line[i];
  }

  // ----- reading

  /** Scans to the next newline or NUL, overwrites it with NUL, and tells whether it was a newline. */
  method Strsep(buf: array<char>, from: nat, ghost text: string) returns (end: nat, more: bool)
    requires from <= |text| < buf.Length && buf[from..|text|] == text[from..] && '\0' !in text && buf[|text|] == '\0'
    modifies buf
    ensures end == from + LineLength(text[from..]) && more == (end < |text|)
    ensures buf[..] == old(buf[..])[end := '\0']
  {
    end := from;
    assert forall i :: from <= i < |text| ==> buf[i] == text[from..][i - from] == text[i];
    while buf[end] != '\n' && buf[end] != '\0'
      invariant from <= end <= |text|
      invariant forall i :: from <= i < end ==> buf[i] != '\n'
      decreases |text| - end
    {
      end := end + 1;
    }
    LineLengthIs(text[from..], end - from);
    more := buf[end] != '\0';
    buf[end] := '\0';
  }

  lemma LineLengthIs(t: string, n: nat)
    requires n <= |t| && (forall i :: 0 <= i < n ==> t[i] != '\n') && (n < |t| ==> t[n] == '\n')
    ensures LineLength(t) == n
  {
  }

  /** Every newline-terminated line of the buffer's text becomes an element; an unterminated tail is dropped. */
  method BreakIntoLines(buf: array<char>) returns (tags: seq<string>)
    requires '\0' in buf[..]
    modifies buf
    ensures tags == TerminatedLines(CText(old(buf[..])))
  {
    ghost var text := CText(buf[..]);
    assert text[0..] == text && buf[0..|text|] == text;
    tags := SplitText(buf, text);
  }

  method SplitText(buf: array<char>, ghost text: string) returns (tags: seq<string>)
    requires '\0' !in text && |text| < buf.Length && buf[..|text|] == text && buf[|text|] == '\0'
    modifies buf
    ensures tags == TerminatedLines(text)
  {
    tags := [];
    var at, more := 0, true;
    ghost var taken := 0;
    assert text[0..] == text && buf[0..|text|] == text;
    while more
      invariant Collected(text, taken, tags)
      invariant more ==> at == taken && buf[at..|text|] == text[at..] && buf[|text|] == '\0'
      invariant !more ==> OneLine(text[taken..])
      decreases more, |text| - at
    {
      ghost var before := buf[..];
      assert before[at..|text|] == text[at..];
      var end;
      end, more := Strsep(buf, at, text);
      if more {
        SameRest(before, text, at, end);
        assert buf[at..end] == buf[..][at..end] == text[at..end];
        OneMoreLine(text, at, tags, end - at);
        tags, taken := tags + [buf[at..end]], end + 1;
      }
      at := end + 1;
    }
    assert text == text[..taken] + text[taken..];
    LinesOfWritten(tags, text[taken..]);
  }

  /** The lines, each with its newline, are the text up to a position. */
  predicate Collected(text: string, at: nat, tags: seq<string>) {
    at <= |text| && NewlineFree(tags) && Joined(tags, "\n") == text[..at]
  }

  lemma OneMoreLine(text: string, at: nat, tags: seq<string>, n: nat)
    requires Collected(text, at, tags) && n == LineLength(text[at..]) && at + n < |text|
    ensures Collected(text, at + n + 1, tags + [text[at..at + n]])
  {
    var line, more := text[at..at + n], tags + [text[at..at + n]];
    assert more[..|tags|] == tags;
    assert forall i :: 0 <= i < n ==> line[i] == text[at..][i];
    assert text[at + n] == text[at..][n];
    assert text[..at] + line + "\n" == text[..at + n + 1];
  }

  lemma SameRest(s: seq<char>, text: string, at: nat, end: nat)
    requires at <= end < |text| < |s| && s[at..|text|] == text[at..]
    ensures var s' := s[end := '\0']; s'[at..end] == text[at..end] && s'[end + 1..|text|] == text[end + 1..]
  {
    assert s[at..|text|][end + 1 - at..] == s[end + 1..|text|];
    assert text[at..][end + 1 - at..] == text[end + 1..];
    assert s[at..|text|][..end - at] == s[at..end];
    assert text[at..][..end - at] == text[at..end];
  }

  lemma NextLine(t: string, line: string, rest: string, n: nat)
    requires n == LineLength(t) < |t| && t[..n] == line && t[n + 1..] == rest
    ensures TerminatedLines(t) == [line] + TerminatedLines(rest) && Unterminated(t) == Unterminated(rest)
  {
  }

  lemma NoLine(t: string)
    requires LineLength(t) == |t|
    ensures TerminatedLines(t) == [] && Unterminated(t) == t
  {
  }

  // ----- writing

  /** Each line and a newline, in order. */
  method WriteLines(lines: seq<string>) returns (file: string)
    ensures file == Joined(lines, "\n")
  {
    file := "";
    for i := 0 to |lines|
      invariant file == Joined(lines[..i], "\n")
    {
      assert lines[..i + 1][..i] == lines[..i];
      file := file + lines[i] + "\n";
    }
    assert lines[..|lines|] == lines;
  }

  /** A written tags file is read back as the same lines. */
  lemma WrittenLinesAreRead(lines: seq<string>, more: seq<char>)
    requires NewlineFree(lines) && forall k :: 0 <= k < |lines| ==> '\0' !in lines[k]
    ensures TerminatedLines(CText(Joined(lines, "\n") + ['\0'] + more)) == lines
  {
    NoNulJoined(lines);
    CTextOfTerminated(Joined(lines, "\n"), more);
    LinesOfWritten(lines, "");
    assert Joined(lines, "\n") + "" == Joined(lines, "\n");
  }

  lemma {:induction false} NoNulJoined(lines: seq<string>)
    requires forall k :: 0 <= k < |lines| ==> '\0' !in lines[k]
    ensures '\0' !in Joined(lines, "\n")
  {
    if |lines| > 0 {
      NoNulJoined(lines[..|lines| - 1]);
    }
  }

  // ----- byte offsets

  function Clamp(i: int, n: nat): nat { if i < 0 then 0 else if i > n then n else i }

  /** Where lines first to last of the joined text begin and end. */
  method Lines2Bytes(lines: LinkedList<string>, first: int, last: int) returns (start: nat, end: nat)
    requires lines.Valid()
    ensures start == |Joined(lines.Items[..Clamp(first, |lines.Items|)], "\n")|
    ensures end == |Joined(lines.Items[..Clamp(if last + 1 >= first then last + 1 else first, |lines.Items|)], "\n")|
  {
    start, end := 0, 0;
    var i := 0;
    var node := lines.head;
    ghost var items := lines.Items;
    while node != null
      invariant 0 <= i <= |lines.Spine| == |items| && node == if i < |lines.Spine| then lines.Spine[i] else null
      invariant start == |Joined(items[..Clamp(first, i)], "\n")|
      invariant end == |Joined(items[..Clamp(if last + 1 >= first then last + 1 else first, i)], "\n")|
      decreases |items| - i
    {
      assert items[..i + 1][..i] == items[..i];
      assert node.data == items[i];
      if i < first {
        start := start + |node.data| + 1;
        end := start;
      } else if i < last + 1 {
        end := end + |node.data| + 1;
      } else {
        break;
      }
      node := node.next;
      i := i + 1;
    }
  }

  /** The joined text between the two offsets is exactly lines first to last, each with its newline. */
  lemma SliceIsLines(items: seq<string>, first: int, last: int)
    requires first <= last + 1
    ensures var a, b := Clamp(first, |items|), Clamp(last + 1, |items|);
            var start, end := |Joined(items[..a], "\n")|, |Joined(items[..b], "\n")|;
            start <= end <= |Joined(items, "\n")| && Joined(items, "\n")[start..end] == Joined(items[a..b], "\n")
  {
    var a, b := Clamp(first, |items|), Clamp(last + 1, |items|);
    assert items[..b] == items[..a] + items[a..b];
    assert items == items[..b] + items[b..];
    JoinedConcat(items[..a], items[a..b], "\n");
    JoinedConcat(items[..b], items[b..], "\n");
  }
}
