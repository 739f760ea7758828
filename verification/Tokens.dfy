/** Cutting stripped text into the words the tags are looked up by. */
module Tokens {
  import opened CStrings

  predicate IsAlpha(c: char) { 'a' <= c <= 'z' || 'A' <= c <= 'Z' }

  predicate IsDigit(c: char) { '0' <= c <= '9' }

  /** A character that may stand in a word, and one that may begin a token. */
  predicate IsWord(c: char) { c == '_' || IsAlpha(c) || IsDigit(c) }

  predicate IsStart(c: char) { c == '_' || IsAlpha(c) }

  predicate CFunc(c: char, first: bool) { if first then IsStart(c) else IsWord(c) }

  // ----- what the words of a text are

  /** The text cut at every character that is not a word character; neighbouring cuts leave empty pieces. */
  function Pieces(t: string): (pieces: seq<string>)
    ensures |pieces| > 0
  {
    if |t| == 0 then [""]
    else
      var others := Pieces(t[1..]);
      if IsWord(t[0]) then [[t[0]] + others[0]] + others[1..] else [""] + others
  }

  /** The characters the text is cut at. */
  function Cuts(t: string): string {
    if |t| == 0 then "" else (if IsWord(t[0]) then "" else [t[0]]) + Cuts(t[1..])
  }

  function Interleaved(pieces: seq<string>, cuts: string): string
    requires |pieces| == |cuts| + 1
  {
    if |cuts| == 0 then pieces[0] else pieces[0] + [cuts[0]] + Interleaved(pieces[1..], cuts[1..])
  }

  predicate OnlyWord(p: string) { forall i :: 0 <= i < |p| ==> IsWord(p[i]) }

  lemma LongerPiece(c: char, others: seq<string>, cuts: string)
    requires |others| == |cuts| + 1
    ensures Interleaved([[c] + others[0]] + others[1..], cuts) == [c] + Interleaved(others, cuts)
  {
    var pieces := [[c] + others[0]] + others[1..];
    assert pieces[1..] == others[1..];
    if |cuts| > 0 {
      var tail := [cuts[0]] + Interleaved(others[1..], cuts[1..]);
      assert ([c] + others[0]) + tail == [c] + (others[0] + tail);
      assert Interleaved(pieces, cuts) == ([c] + others[0]) + tail;
      assert Interleaved(others, cuts) == others[0] + tail;
    }
  }

  lemma EmptyPiece(c: char, others: seq<string>, cuts: string)
    requires |others| == |cuts| + 1
    ensures Interleaved([""] + others, [c] + cuts) == [c] + Interleaved(others, cuts)
  {
    assert ([c] + cuts)[1..] == cuts && ([""] + others)[1..] == others;
    assert "" + [c] + Interleaved(others, cuts) == [c] + Interleaved(others, cuts);
  }

  /** The pieces are maximal runs of word characters: nothing else is in them and the cuts put them back together. */
  lemma {:induction false} PiecesAreMaximal(t: string)
    ensures |Pieces(t)| == |Cuts(t)| + 1 && Interleaved(Pieces(t), Cuts(t)) == t
    ensures forall p :: p in Pieces(t) ==> OnlyWord(p)
    ensures forall c :: c in Cuts(t) ==> !IsWord(c)
  {
    if |t| > 0 {
      PiecesAreMaximal(t[1..]);
      var others, cuts := Pieces(t[1..]), Cuts(t[1..]);
      assert [t[0]] + t[1..] == t;
      if IsWord(t[0]) {
        LongerPiece(t[0], others, cuts);
        assert others[0] in others && OnlyWord([t[0]] + others[0]);
        assert Pieces(t) == [[t[0]] + others[0]] + others[1..] && Cuts(t) == cuts;
      } else {
        EmptyPiece(t[0], others, cuts);
      }
    }
  }

  function StripDigits(s: string): (r: string)
    ensures |r| > 0 ==> !IsDigit(r[0])
    ensures r <= s || |r| < |s|
  {
    if |s| > 0 && IsDigit(s[0]) then StripDigits(s[1..]) else s
  }

  /** The pieces without their leading digits, the empty ones left out. */
  function Stripped(pieces: seq<string>): seq<string> {
    if |pieces| == 0 then []
    else (if StripDigits(pieces[0]) == "" then [] else [StripDigits(pieces[0])]) + Stripped(pieces[1..])
  }

  /** The words of a text. */
  function Words(t: string): seq<string> { Stripped(Pieces(t)) }

  /** The text stops inside a word. */
  predicate EndsInWord(t: string) { StripDigits(Pieces(t)[|Pieces(t)| - 1]) != "" }

  // ----- the same, the way the scan meets them

  /** Word characters at the front. */
  function RunLength(t: string): (n: nat)
    ensures n <= |t| && (forall i :: 0 <= i < n ==> IsWord(t[i])) && (n < |t| ==> !IsWord(t[n]))
  {
    if |t| == 0 || !IsWord(t[0]) then 0 else 1 + RunLength(t[1..])
  }

  lemma LongerRun(t: string, n: nat)
    requires 0 < n <= |t|
    ensures [t[0]] + t[1..][..n - 1] == t[..n]
    ensures n < |t| ==> t[1..][n..] == t[n + 1..]
  {
  }

  lemma {:induction false} FirstPiece(t: string)
    ensures Pieces(t)[0] == t[..RunLength(t)]
    ensures Pieces(t)[1..] == if RunLength(t) == |t| then [] else Pieces(t[RunLength(t) + 1..])
  {
    if |t| > 0 {
      if IsWord(t[0]) {
        FirstPiece(t[1..]);
        LongerRun(t, RunLength(t));
        assert Pieces(t)[1..] == Pieces(t[1..])[1..];
      } else {
        assert Pieces(t)[1..] == Pieces(t[1..]);
      }
    }
  }

  /** A word ahead of a cut. */
  lemma WordThen(t: string)
    requires |t| > 0 && IsStart(t[0]) && RunLength(t) < |t|
    ensures Words(t) == [t[..RunLength(t)]] + Words(t[RunLength(t) + 1..])
    ensures EndsInWord(t) == EndsInWord(t[RunLength(t) + 1..])
  {
    FirstPiece(t);
    assert Pieces(t)[0][0] == t[0];
    PieceAhead(Pieces(t), Pieces(t)[1..], t[..RunLength(t)]);
  }

  lemma PieceAhead(pieces: seq<string>, others: seq<string>, first: string)
    requires |pieces| > 0 && pieces[0] == first && pieces[1..] == others && |first| > 0 && !IsDigit(first[0])
    ensures Stripped(pieces) == [first] + Stripped(others)
  {
  }

  lemma WordAtEnd(t: string)
    requires |t| > 0 && IsStart(t[0]) && RunLength(t) == |t|
    ensures EndsInWord(t)
  {
    FirstPiece(t);
    var pieces := Pieces(t);
    assert pieces == [pieces[0]] + pieces[1..];
    assert pieces[0][0] == t[0];
  }

  lemma NoWordYet(t: string)
    requires |t| > 0 && !IsStart(t[0])
    ensures Words(t) == Words(t[1..]) && EndsInWord(t) == EndsInWord(t[1..])
  {
    var pieces, others := Pieces(t), Pieces(t[1..]);
    if IsWord(t[0]) {
      assert pieces[0][0] == t[0] && pieces[0][1..] == others[0];
      assert pieces[1..] == others[1..];
    } else {
      assert pieces[1..] == others;
    }
  }

  /** A text whose last character cannot stand in a word does not stop inside one. */
  lemma {:induction false} ClosedTextEndsOutsideWords(t: string)
    requires |t| == 0 || !IsWord(t[|t| - 1])
    ensures !EndsInWord(t)
  {
    if |t| > 0 {
      ClosedTextEndsOutsideWords(t[1..]);
      var pieces, others := Pieces(t), Pieces(t[1..]);
      if IsWord(t[0]) {
        FirstPiece(t);
        assert RunLength(t) < |t|;
        assert |pieces[1..]| > 0;
      } else {
        assert pieces[1..] == others;
      }
    }
  }

  /** A text that does, and one that does not. */
  lemma EndsInWordExample()
    ensures EndsInWord("int x") && !EndsInWord("int x;")
  {
    var t := "int x";
    assert IsStart(t[0]) && IsWord(t[1]) && IsWord(t[2]) && !IsWord(t[3]);
    RunLengthIs(t, 3);
    WordThen(t);
    assert t[4..] == "x";
    WordAtEnd("x");
    ClosedTextEndsOutsideWords("int x;");
  }

  // ----- the scan over a NUL-terminated buffer

  /** Part of the buffer that a token refers to. */
  datatype Block = Block(at: nat, len: nat)

  function At(s: seq<char>, b: Block): string {
    if b.at + b.len <= |s| then s[b.at..b.at + b.len] else ""
  }

  /** How far a scan gets before a character stops it. */
  function Skip(text: string, from: nat): (n: nat)
    requires from <= |text|
    ensures from + n <= |text|
  {
    if from < |text| && IsStart(text[from]) then RunLength(text[from..]) else 0
  }

  /**
   Scans from a position to the first character the check rejects, puts a NUL there and leaves the
   position after it, or none if a NUL was there already.
   */
  method StrsepF(buf: array<char>, from: nat, ghost text: string) returns (end: nat, more: bool)
    requires from <= |text| < buf.Length && buf[from..|text|] == text[from..] && '\0' !in text && buf[|text|] == '\0'
    modifies buf
    ensures end == from + Skip(text, from)
    ensures more == (end < |text|)
    ensures buf[..] == old(buf[..])[end := '\0']
    ensures buf[from] == '\0' <==> end == from
  {
    end := from;
    var first := true;
    assert forall i :: from <= i < |text| ==> buf[i] == text[from..][i - from] == text[i];
    while CFunc(buf[end], first)
      invariant from <= end <= |text| && first == (end == from)
      invariant forall i :: from <= i < end ==> IsWord(buf[i])
      invariant end > from ==> IsStart(text[from])
      decreases |text| - end
    {
      end := end + 1;
      first := false;
    }
    RunLengthIs(text[from..], end - from);
    more := buf[end] != '\0';
    buf[end] := '\0';
  }

  lemma {:induction false} RunLengthIs(t: string, n: nat)
    requires n <= |t| && (forall i :: 0 <= i < n ==> IsWord(t[i])) && (n < |t| ==> n == 0 || !IsWord(t[n]))
    ensures n > 0 ==> RunLength(t) == n
  {
  }

  /** Blocks in front of a limit that hold the given words, each followed by a NUL. */
  predicate Marked(s: seq<char>, list: seq<Block>, words: seq<string>, limit: nat) {
    && |list| == |words|
    && forall k :: 0 <= k < |list| ==>
        && list[k].at + list[k].len < limit && list[k].at + list[k].len < |s|
        && At(s, list[k]) == words[k] && s[list[k].at + list[k].len] == '\0'
  }

  /** Writing a NUL beyond the limit disturbs none of them. */
  lemma StaysMarked(s: seq<char>, list: seq<Block>, words: seq<string>, limit: nat, end: nat)
    requires Marked(s, list, words, limit) && limit <= end < |s|
    ensures Marked(s[end := '\0'], list, words, end + 1)
  {
    var s' := s[end := '\0'];
    forall k | 0 <= k < |list|
      ensures At(s', list[k]) == words[k]
    {
      assert At(s', list[k]) == At(s, list[k]);
    }
  }

  lemma MarkedMore(s: seq<char>, list: seq<Block>, words: seq<string>, b: Block, word: string, limit: nat)
    requires Marked(s, list, words, limit) && b.at + b.len < limit && b.at + b.len < |s|
    requires At(s, b) == word && s[b.at + b.len] == '\0'
    ensures Marked(s, list + [b], words + [word], limit)
  {
  }

  lemma NoWords()
    ensures Words("") == [] && !EndsInWord("")
  {
    assert Pieces("")[1..] == [];
  }

  /** The scan has dealt with the text before a position. */
  predicate Progress(s: seq<char>, text: string, at: nat, list: seq<Block>, words: seq<string>) {
    && at <= |text| < |s| && s[at..|text|] == text[at..] && s[|text|] == '\0'
    && Words(text) == words + Words(text[at..]) && EndsInWord(text) == EndsInWord(text[at..])
    && Marked(s, list, words, at)
  }

  lemma ProgressOverOne(s: seq<char>, text: string, at: nat, list: seq<Block>, words: seq<string>)
    requires Progress(s, text, at, list, words) && at < |text| && !IsStart(text[at])
    ensures Progress(s[at := '\0'], text, at + 1, list, words)
  {
    NoWordYet(text[at..]);
    assert text[at..][1..] == text[at + 1..];
    StaysMarked(s, list, words, at, at);
    SameRest(s, text, at, at);
  }

  lemma SameRest(s: seq<char>, text: string, at: nat, end: nat)
    requires at <= end < |text| < |s| && s[at..|text|] == text[at..]
    ensures s[end := '\0'][end + 1..|text|] == text[end + 1..]
  {
    assert s[at..|text|][end + 1 - at..] == s[end + 1..|text|];
    assert text[at..][end + 1 - at..] == text[end + 1..];
  }

  lemma ProgressOverWord(s: seq<char>, text: string, at: nat, list: seq<Block>, words: seq<string>, end: nat)
    requires Progress(s, text, at, list, words) && at < |text| && IsStart(text[at])
    requires end == at + RunLength(text[at..]) < |text|
    ensures Progress(s[end := '\0'], text, end + 1, list + [Block(at, end - at)], words + [text[at..end]])
  {
    WordRead(text, at, words, end);
    BlockRead(s, text, at, list, words, end);
    SameRest(s, text, at, end);
  }

  lemma WordRead(text: string, at: nat, words: seq<string>, end: nat)
    requires at < |text| && IsStart(text[at]) && end == at + RunLength(text[at..]) < |text|
    requires Words(text) == words + Words(text[at..]) && EndsInWord(text) == EndsInWord(text[at..])
    ensures Words(text) == words + [text[at..end]] + Words(text[end + 1..]) && EndsInWord(text) == EndsInWord(text[end + 1..])
  {
    var rest, word := text[at..], text[at..end];
    assert rest[..end - at] == word && rest[end - at + 1..] == text[end + 1..];
    WordThen(rest);
    assert words + ([word] + Words(text[end + 1..])) == words + [word] + Words(text[end + 1..]);
  }

  lemma BlockRead(s: seq<char>, text: string, at: nat, list: seq<Block>, words: seq<string>, end: nat)
    requires at <= end < |text| < |s| && s[at..|text|] == text[at..] && Marked(s, list, words, at)
    ensures Marked(s[end := '\0'], list + [Block(at, end - at)], words + [text[at..end]], end + 1)
  {
    var b, word, s' := Block(at, end - at), text[at..end], s[end := '\0'];
    StaysMarked(s, list, words, at, end);
    assert At(s', b) == s[at..|text|][..end - at] == word;
    MarkedMore(s', list, words, b, word, end + 1);
  }

  lemma ProgressDone(s: seq<char>, text: string, at: nat, list: seq<Block>, words: seq<string>)
    requires Progress(s, text, at, list, words) && at == |text|
    ensures Words(text) == words && !EndsInWord(text) && Marked(s[at := '\0'], list, words, at + 1)
  {
    assert text[at..] == "";
    NoWords();
    StaysMarked(s, list, words, at, at);
  }

  /** The blocks and words after a scan that went on for n characters. */
  function Noted<T>(list: seq<T>, b: T, n: nat): seq<T> { if n > 0 then list + [b] else list }

  lemma Advanced(s: seq<char>, text: string, at: nat, list: seq<Block>, words: seq<string>, n: nat)
    requires Progress(s, text, at, list, words) && n == Skip(text, at)
    ensures at + n < |text| ==>
              Progress(s[at + n := '\0'], text, at + n + 1, Noted(list, Block(at, n), n), Noted(words, text[at..at + n], n))
    ensures at + n == |text| && n == 0 ==> Finished(s[at + n := '\0'], text, list)
    ensures at + n == |text| && n > 0 ==> EndsInWord(text)
  {
    var b, word, end := Block(at, n), text[at..at + n], at + n;
    if end == |text| {
      if n > 0 {
        WordAtEnd(text[at..]);
        assert EndsInWord(text[at..]);
      } else {
        ProgressDone(s, text, at, list, words);
      }
    } else if n > 0 {
      ProgressOverWord(s, text, at, list, words, end);
      assert Noted(list, b, n) == list + [b] && Noted(words, word, n) == words + [word];
    } else {
      ProgressOverOne(s, text, at, list, words);
      assert Noted(list, b, n) == list && Noted(words, word, n) == words;
    }
  }

  /** The blocks hold exactly the text's words, and the text does not stop inside one. */
  predicate Finished(s: seq<char>, text: string, list: seq<Block>) {
    !EndsInWord(text) && Marked(s, list, Words(text), |s|)
  }

  lemma Starting(s: seq<char>)
    requires '\0' in s
    ensures Progress(s, CText(s), 0, [], [])
  {
    var text := CText(s);
    assert text[0..] == text && s[0..|text|] == text;
    assert [] + Words(text) == Words(text);
  }

  /**
   The words of the text as blocks of the buffer, each left NUL-terminated in place. When the text
   stops inside a word the length of the last block is computed from a null pointer, which is reported
   here as a failure.
   */
  method DoTokenize(buf: array<char>) returns (list: seq<Block>, ok: bool)
    requires '\0' in buf[..]
    modifies buf
    ensures ok <==> !EndsInWord(CText(old(buf[..])))
    ensures ok ==> Marked(buf[..], list, Words(CText(old(buf[..]))), buf.Length)
  {
    Starting(buf[..]);
    list, ok := ScanText(buf, CText(buf[..]));
  }

  method ScanText(buf: array<char>, ghost text: string) returns (list: seq<Block>, ok: bool)
    requires '\0' !in text && Progress(buf[..], text, 0, [], [])
    modifies buf
    ensures if ok then Finished(buf[..], text, list) else EndsInWord(text)
  {
    list, ok := [], true;
    ghost var words: seq<string> := [];
    var at, more := 0, true;
    while more
      invariant if more then Progress(buf[..], text, at, list, words) else Finished(buf[..], text, list)
      decreases more, |text| - at
    {
      var end, word;
      end, more, word := NextToken(buf, at, text, list, words);
      if word {
        if !more {
          ok := false;
          return;
        }
        list, words := list + [Block(at, end - at)], words + [text[at..end]];
      }
      at := end + 1;
    }
  }

  /** One scan, and whether it found a word, which is told by the character where it began. */
  method NextToken(buf: array<char>, at: nat, ghost text: string, ghost list: seq<Block>, ghost words: seq<string>)
    returns (end: nat, more: bool, word: bool)
    requires '\0' !in text && Progress(buf[..], text, at, list, words)
    modifies buf
    ensures at <= end <= |text| && more == (end < |text|) && word == (end > at)
    ensures more && word ==> Progress(buf[..], text, end + 1, list + [Block(at, end - at)], words + [text[at..end]])
    ensures more && !word ==> Progress(buf[..], text, end + 1, list, words)
    ensures !more ==> if word then EndsInWord(text) else Finished(buf[..], text, list)
  {
    ghost var before, n := buf[..], Skip(text, at);
    Advanced(before, text, at, list, words, n);
    end, more := StrsepF(buf, at, text);
    assert end == at + n && buf[..] == before[at + n := '\0'];
    word := buf[at] != '\0';
  }
}
