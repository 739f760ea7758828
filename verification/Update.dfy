/** A buffer's update from its lines to the batch of commands: strip, cut into words, search the tags, group them. */
module Update {
  import opened Wrappers
  import opened LinkedList
  import opened Lines
  import opened CStrings
  import opened TagOrder
  import opened TagPipeline
  import Strip
  import Tokens
  import Batch
  import opened Commands

  /** The text that is searched for words. */
  function SearchedText(lines: seq<string>, cLike: bool): string {
    if cLike then Strip.Cleaned(Strip.START, lines).text else Joined(lines, "\n")
  }

  predicate Closed(text: string) { |text| > 0 ==> text[|text| - 1] == '\n' }

  lemma {:induction false} CleanedIsClosed(st: Strip.State, lines: seq<string>)
    ensures Closed(Strip.Cleaned(st, lines).text)
  {
    if |lines| > 0 {
      CleanedIsClosed(st, lines[..|lines| - 1]);
    }
  }

  lemma JoinedIsClosed(lines: seq<string>)
    ensures Closed(Joined(lines, "\n"))
  {
  }

  lemma {:induction false} RestIsNulFree(s: string, want: Strip.Want, esc: bool, cont: Strip.Want)
    ensures '\0' !in Strip.Rest(s, want, esc, cont).text
    decreases |s|
  {
    if |s| > 0 {
      var look := Strip.LookAt(s, want, esc);
      Strip.RestStep(s, want, esc, cont, look);
      if look.Skip? {
        LookIsNulFree(s, want, esc);
        RestIsNulFree(Strip.Drop(s, look.n + 1), look.want, Strip.EscapeAfter(Strip.CharAt(s, look.n), esc), cont);
      }
    }
  }

  lemma LookIsNulFree(s: string, want: Strip.Want, esc: bool)
    requires |s| > 0 && Strip.LookAt(s, want, esc).Skip?
    ensures '\0' !in Strip.Left(s, Strip.LookAt(s, want, esc))
  {
  }

  lemma {:induction false} CleanedIsNulFree(st: Strip.State, lines: seq<string>)
    ensures '\0' !in Strip.Cleaned(st, lines).text
  {
    if |lines| > 0 {
      var n := |lines| - 1;
      var before := Strip.Cleaned(st, lines[..n]);
      CleanedIsNulFree(st, lines[..n]);
      RestIsNulFree(Strip.Unindented(lines[n]), before.state.want, false, Strip.Continued(lines[n]));
    }
  }

  /** The searched text never stops inside a word, so the tokeniser's failure cannot happen here. */
  lemma TextIsFitForTokens(lines: seq<string>, cLike: bool)
    requires forall k :: 0 <= k < |lines| ==> '\0' !in lines[k]
    ensures '\0' !in SearchedText(lines, cLike) && !Tokens.EndsInWord(SearchedText(lines, cLike))
  {
    if cLike {
      CleanedIsClosed(Strip.START, lines);
      CleanedIsNulFree(Strip.START, lines);
    } else {
      JoinedIsClosed(lines);
      NoNulJoined(lines);
    }
    Tokens.ClosedTextEndsOutsideWords(SearchedText(lines, cLike));
  }

  /** The words of a text, read out of the tokeniser's buffer. */
  method WordsOf(text: string) returns (words: seq<string>)
    requires '\0' !in text && !Tokens.EndsInWord(text)
    ensures words == Tokens.Words(text)
  {
    var buf := new char[|text| + 1](i => if 0 <= i < |text| then text[i] else '\0');
    assert buf[..] == text + ['\0'] + [];
    CTextOfTerminated(text, []);
    assert buf[|text|] in buf[..];
    var list, ok := Tokens.DoTokenize(buf);
    words := ReadBlocks(buf, list);
  }

  method ReadBlocks(buf: array<char>, list: seq<Tokens.Block>) returns (words: seq<string>)
    ensures |words| == |list| && forall k :: 0 <= k < |list| ==> words[k] == Tokens.At(buf[..], list[k])
  {
    words := [];
    for i := 0 to |list|
      invariant |words| == i && forall k :: 0 <= k < i ==> words[k] == Tokens.At(buf[..], list[k])
    {
      words := words + [Tokens.At(buf[..], list[i])];
    }
  }

  /** The query of a buffer with a given text. */
  function Asked(q: Query, text: string): Query { q.(words := Tokens.Words(text)) }

  /** Whatever is found, its commands have lengths of 32 bits. */
  ghost predicate CommandsFit(ft: Filetype, infos: seq<Info>, q: Query, tags: seq<string>) {
    forall list :: Answers(q, tags, list) ==> TextsFit(KindCommands(ft, infos, list))
  }

  /** The batch holds the commands of exactly the wanted tags. */
  ghost predicate Highlights(calls: Batch.ArgArray, ft: Filetype, infos: seq<Info>, q: Query, tags: seq<string>)
    reads calls, calls.fmt, calls.args
  {
    exists list :: Answers(q, tags, list) && HoldsCommands(calls, AllCommands(ft, infos, list))
  }

  /** No word of the text picks a line of these tags. */
  predicate NothingFor(asked: Query, tags: seq<string>) {
    |asked.words| == 0 || forall line :: line in tags ==> Accepted(asked, line).None?
  }

  // ----- the tag lines that ctags gives

  /** The lines of a ctags output, which is read as a C string. */
  function TagLines(out: string): seq<string> { TerminatedLines(CText(out + ['\0'])) }

  /** A run of ctags replaces the tag lines, unless it gives no output at all. */
  function Taken(tags: seq<string>, out: Option<string>): seq<string> {
    if out.Some? then TagLines(out.value) else tags
  }

  /** The project directory's tag lines. */
  class TagFile {
    var tags: seq<string>

    constructor (tags: seq<string>)
      ensures this.tags == tags
    {
      this.tags := tags;
    }

    method UpdateTaglist(out: Option<string>)
      modifies this
      ensures tags == Taken(old(tags), out)
    {
      if out.None? {
        return;
      }
      var text := out.value + ['\0'];
      var buf := new char[|text|](i requires 0 <= i < |text| => text[i]);
      assert buf[..] == text && text[|out.value|] in buf[..];
      tags := BreakIntoLines(buf);
    }
  }

  /**
   What the three runs of an update give: a normal one, one with the language forced, and the normal one
   that the second attempt begins with.
   */
  datatype Outputs = Outputs(normal: Option<string>, forced: Option<string>, again: Option<string>)

  function FirstTags(tags: seq<string>, outs: Outputs): seq<string> { Taken(tags, outs.normal) }

  /** The tag lines of the second attempt: the forced ones have been replaced unless the last run gives nothing. */
  function SecondTags(tags: seq<string>, outs: Outputs): seq<string> {
    Taken(Taken(FirstTags(tags, outs), outs.forced), outs.again)
  }

  /** The second attempt searches what the forced run gave if and only if the run after it gives nothing, or the same. */
  lemma ForcedIsSearchedIff(tags: seq<string>, outs: Outputs)
    requires outs.forced.Some?
    ensures SecondTags(tags, outs) == TagLines(outs.forced.value)
       <==> outs.again.None? || TagLines(outs.again.value) == TagLines(outs.forced.value)
  {
  }

  /** What the forced run gives matters at all if and only if the run after it gives nothing. */
  lemma ForcedMattersIff(tags: seq<string>, normal: Option<string>, again: Option<string>)
    ensures (exists f, g :: SecondTags(tags, Outputs(normal, f, again)) != SecondTags(tags, Outputs(normal, g, again)))
       <==> again.None?
  {
    if again.None? {
      OneTagLine("a");
      OneTagLine("b");
      assert ["a"] != ["b"];
      assert SecondTags(tags, Outputs(normal, Some("a\n"), again)) != SecondTags(tags, Outputs(normal, Some("b\n"), again));
    }
  }

  lemma OneTagLine(line: string)
    requires OneLine(line) && '\0' !in line
    ensures TagLines(line + "\n") == [line]
  {
    assert [line][..0] == [];
    assert Joined([line], "\n") == "" + line + "\n" == line + "\n";
    WrittenLinesAreRead([line], []);
    assert line + "\n" + ['\0'] + [] == line + "\n" + ['\0'];
  }

  /** When the normal run gives the same output again the second attempt is as vain as the first. */
  lemma SameAgainIsVain(asked: Query, tags: seq<string>, outs: Outputs)
    requires outs.normal.Some? && outs.again == outs.normal && NothingFor(asked, FirstTags(tags, outs))
    ensures NothingFor(asked, SecondTags(tags, outs))
  {
  }

  /** A line that only the forced run gives, and that the buffer's words want, is not found. */
  lemma ForcedLineIsLost(asked: Query, tags: seq<string>, line: string)
    requires |asked.words| > 0 && Accepted(asked, line).Some? && OneLine(line) && '\0' !in line
    ensures var outs := Outputs(Some(""), Some(line + "\n"), Some(""));
            && !NothingFor(asked, TagLines(outs.forced.value))
            && NothingFor(asked, FirstTags(tags, outs)) && NothingFor(asked, SecondTags(tags, outs))
  {
    OneTagLine(line);
    assert line in [line];
    CTextOfTerminated("", []);
    assert "" + ['\0'] + [] == "" + ['\0'];
    assert TagLines("") == [];
  }

  predicate PlainText(s: string) { forall i :: 0 <= i < |s| ==> s[i] != '\n' && s[i] != '\0' }

  lemma {:induction false} TabbedIsPlain(f: seq<string>)
    requires |f| > 0 && forall k :: 0 <= k < |f| ==> PlainText(f[k])
    ensures PlainText(Tabbed(f))
  {
    if |f| > 1 {
      TabbedIsPlain(f[1..]);
    }
  }

  /** A function of a buffer's own file that only the forced run reports. */
  lemma OwnFunctionIsLost(asked: Query, tags: seq<string>, name: string)
    requires |asked.words| > 0 && asked.lang == "C" && 'f' in asked.order && asked.equiv == [] && name !in asked.skip
    requires TabFree(name) && PlainText(name) && (|name| > 0 ==> name[0] != '!')
    requires TabFree(asked.filename) && PlainText(asked.filename)
    ensures var outs := Outputs(Some(""), Some(Tabbed([name, asked.filename, "1", "f", "language:C"]) + "\n"), Some(""));
            && !NothingFor(asked, TagLines(outs.forced.value))
            && NothingFor(asked, FirstTags(tags, outs)) && NothingFor(asked, SecondTags(tags, outs))
  {
    OwnFunctionIsAccepted(asked, name, "1");
    TabbedIsPlain([name, asked.filename, "1", "f", "language:C"]);
    ForcedLineIsLost(asked, tags, Tabbed([name, asked.filename, "1", "f", "language:C"]));
  }

  /** Such a buffer. */
  lemma ForcedLineExample(tags: seq<string>)
    ensures var asked := Query(["main"], [], [], "C", "f", "a.c", true);
            var outs := Outputs(Some(""), Some(Tabbed(["main", "a.c", "1", "f", "language:C"]) + "\n"), Some(""));
            && !NothingFor(asked, TagLines(outs.forced.value))
            && NothingFor(asked, FirstTags(tags, outs)) && NothingFor(asked, SecondTags(tags, outs))
  {
    OwnFunctionIsLost(Query(["main"], [], [], "C", "f", "a.c", true), tags, "main");
  }

  // ----- the update

  /**
   The whole update. If no tag line is wanted the ctags runs are repeated and searched once more. There
   is no batch if and only if that is in vain too, and otherwise the batch highlights exactly the wanted
   tags of the attempt that succeeded.
   */
  method UpdateOther(lines: LinkedList<string>, cLike: bool, q: Query, top: TagFile, outs: Outputs,
                     threads: nat, order: seq<nat>, ft: Filetype, infos: seq<Info>)
    returns (calls: Batch.ArgArray?)
    requires lines.Valid() && NewlineFree(lines.Items) && forall k :: 0 <= k < |lines.Items| ==> '\0' !in lines.Items[k]
    requires threads > 0 && FinishOrder(order, threads)
    requires CommandsFit(ft, infos, Asked(q, SearchedText(lines.Items, cLike)), FirstTags(top.tags, outs))
    requires CommandsFit(ft, infos, Asked(q, SearchedText(lines.Items, cLike)), SecondTags(top.tags, outs))
    modifies top
    ensures var asked := Asked(q, SearchedText(old(lines.Items), cLike));
            var first, second := FirstTags(old(top.tags), outs), SecondTags(old(top.tags), outs);
            && top.tags == (if NothingFor(asked, first) then second else first)
            && (calls == null <==> NothingFor(asked, first) && NothingFor(asked, second))
            && (calls != null ==> fresh(calls) && Highlights(calls, ft, infos, asked, top.tags))
  {
    top.UpdateTaglist(outs.normal);
    calls := UpdateOnce(lines, cLike, q, top.tags, threads, order, ft, infos);
    if calls == null {
      top.UpdateTaglist(outs.forced);
      top.UpdateTaglist(outs.again);
      calls := UpdateOnce(lines, cLike, q, top.tags, threads, order, ft, infos);
    }
  }

  /** One attempt. */
  method UpdateOnce(lines: LinkedList<string>, cLike: bool, q: Query, tags: seq<string>, threads: nat, order: seq<nat>,
                    ft: Filetype, infos: seq<Info>)
    returns (calls: Batch.ArgArray?)
    requires lines.Valid() && NewlineFree(lines.Items) && forall k :: 0 <= k < |lines.Items| ==> '\0' !in lines.Items[k]
    requires threads > 0 && FinishOrder(order, threads)
    requires CommandsFit(ft, infos, Asked(q, SearchedText(lines.Items, cLike)), tags)
    ensures var asked := Asked(q, SearchedText(lines.Items, cLike));
            && (calls == null <==> NothingFor(asked, tags))
            && (calls != null ==> fresh(calls) && Highlights(calls, ft, infos, asked, tags))
  {
    TextIsFitForTokens(lines.Items, cLike);
    var joined := Strip.StripComments(lines, cLike);
    var words := WordsOf(joined);
    var found := ProcessTags(q.(words := words), tags, threads, order);
    calls := null;
    if found.Some? {
      calls := UpdateCommands(ft, infos, found.value);
    }
  }
}
