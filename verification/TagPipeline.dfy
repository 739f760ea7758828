/**
 Finding the tags of a buffer: the tag lines are shared out over threads, each thread keeps the lines
 that pass its filter, and the results are merged, sorted and freed of duplicates.
 */
module TagPipeline {
  import opened Wrappers
  import opened TagOrder

  // ----- the fields of a tag line

  /** Characters before the first tab. */
  function FieldLength(s: string): (n: nat)
    ensures n <= |s| && (forall i :: 0 <= i < n ==> s[i] != '\t') && (n < |s| ==> s[n] == '\t')
  {
    if |s| == 0 || s[0] == '\t' then 0 else 1 + FieldLength(s[1..])
  }

  /** The tab-separated fields. */
  function Fields(s: string): (f: seq<string>)
    ensures |f| > 0
  {
    var n := FieldLength(s);
    if n == |s| then [s] else [s[..n]] + Fields(s[n + 1..])
  }

  function Tabbed(f: seq<string>): string
    requires |f| > 0
  {
    if |f| == 1 then f[0] else f[0] + "\t" + Tabbed(f[1..])
  }

  predicate TabFree(s: string) { forall i :: 0 <= i < |s| ==> s[i] != '\t' }

  /** Cutting at tabs undoes joining with tabs. */
  lemma {:induction false} FieldsOfTabbed(f: seq<string>)
    requires |f| > 0 && forall k :: 0 <= k < |f| ==> TabFree(f[k])
    ensures Fields(Tabbed(f)) == f
  {
    var s := Tabbed(f);
    if |f| == 1 {
      assert FieldLength(s) == |s|;
      assert f == [f[0]];
    } else {
      FieldsOfTabbed(f[1..]);
      FirstField(f[0], Tabbed(f[1..]));
      HeadAndTail(f, Fields(s));
    }
  }

  lemma HeadAndTail(f: seq<string>, g: seq<string>)
    requires |f| > 0 && g == [f[0]] + f[1..]
    ensures f == g
  {
  }

  lemma FirstField(field: string, rest: string)
    requires TabFree(field)
    ensures Fields(field + "\t" + rest) == [field] + Fields(rest)
  {
    var s := field + "\t" + rest;
    assert s[|field|] == '\t' && forall i :: 0 <= i < |field| ==> s[i] == field[i];
    assert FieldLength(s) == |field|;
    assert s[..|field|] == field && s[|field| + 1..] == rest;
  }

  const LANGUAGE := "language:"

  /** The last one-character field, or NUL. */
  function KindOf(fields: seq<string>): char {
    if |fields| == 0 then '\0'
    else
      var last := fields[|fields| - 1];
      if |last| == 1 then last[0] else KindOf(fields[..|fields| - 1])
  }

  /** What follows "language:" in the last field that begins with it. */
  function LanguageOf(fields: seq<string>): Option<string> {
    if |fields| == 0 then None
    else
      var last := fields[|fields| - 1];
      if LANGUAGE <= last then Some(last[|LANGUAGE|..]) else LanguageOf(fields[..|fields| - 1])
  }

  // ----- the filter

  /** What a buffer asks for; a filetype without ignored tags or equivalences has empty lists. */
  datatype Query = Query(words: seq<string>, skip: seq<string>, equiv: seq<(char, char)>, lang: string,
                         order: string, filename: string, cFamily: bool)

  /** The kind that the first matching pair replaces it with. */
  function Equivalent(equiv: seq<(char, char)>, kind: char): char {
    if |equiv| == 0 then kind
    else if kind == equiv[0].0 then equiv[0].1
    else Equivalent(equiv[1..], kind)
  }

  /** A search of a C string also finds its terminator. */
  predicate InOrder(order: string, kind: char) { kind == '\0' || kind in order }

  function LowerCase(c: char): char { if 'A' <= c <= 'Z' then c + 32 as char else c }

  predicate EqualCaseless(a: string, b: string) {
    |a| == |b| && forall i :: 0 <= i < |a| ==> LowerCase(a[i]) == LowerCase(b[i])
  }

  predicate CorrectLanguage(q: Query, lang: string) {
    EqualCaseless(lang, q.lang) || (q.cFamily && (EqualCaseless(lang, "C") || EqualCaseless(lang, "C++")))
  }

  /**
   The tag that a line contributes, if any. A line of fewer than four fields has at most one left to
   tell its kind and language from, so it contributes none.
   */
  function Accepted(q: Query, line: string): Option<Tag> {
    if |line| == 0 || line[0] == '!' then None
    else
      var f := Fields(line);
      if |f| < 4 then None
      else Judged(q, f[0], f[1], KindOf(f[3..]), LanguageOf(f[3..]))
  }

  function Judged(q: Query, name: string, file: string, kind: char, lang: Option<string>): Option<Tag> {
    var k := Equivalent(q.equiv, kind);
    if kind != '\0' && lang.Some? && InOrder(q.order, k) && CorrectLanguage(q, lang.value)
       && name !in q.skip && (q.filename == file || name in q.words)
    then Some(Tag(k, name))
    else None
  }

  /** The tags of the accepted lines, in order. */
  function Found(q: Query, lines: seq<string>): seq<Tag> {
    if |lines| == 0 then []
    else Found(q, lines[..|lines| - 1]) + Contribution(Accepted(q, lines[|lines| - 1]))
  }

  function Contribution(t: Option<Tag>): seq<Tag> {
    match t
    case None => []
    case Some(tag) => [tag]
  }

  lemma {:induction false} FoundConcat(q: Query, a: seq<string>, b: seq<string>)
    ensures Found(q, a + b) == Found(q, a) + Found(q, b)
    decreases |b|
  {
    if |b| == 0 {
      assert a + b == a;
    } else {
      var n := |b| - 1;
      assert (a + b)[..|a| + n] == a + b[..n];
      FoundConcat(q, a, b[..n]);
    }
  }

  lemma {:induction false} FoundMembers(q: Query, lines: seq<string>, t: Tag)
    ensures t in Found(q, lines) <==> exists line :: line in lines && Accepted(q, line) == Some(t)
  {
    if |lines| > 0 {
      var n := |lines| - 1;
      FoundMembers(q, lines[..n], t);
      assert lines == lines[..n] + [lines[n]];
      if line :| line in lines && Accepted(q, line) == Some(t) {
        assert line in lines[..n] || line == lines[n];
      }
      if t in Contribution(Accepted(q, lines[n])) {
        assert lines[n] in lines;
      }
    }
  }

  // ----- sharing the lines out

  function ChunkStart(qty: nat, threads: nat, i: nat): nat
    requires threads > 0
  {
    i * (qty / threads)
  }

  function ChunkSize(qty: nat, threads: nat, i: nat): nat
    requires i < threads
  {
    ChunksFit(qty, threads);
    if i == threads - 1 then qty - (threads - 1) * (qty / threads) else qty / threads
  }

  lemma ChunksFit(qty: nat, threads: nat)
    requires threads > 0
    ensures (threads - 1) * (qty / threads) <= qty
  {
    var quot := qty / threads;
    assert threads * quot <= qty;
    assert (threads - 1) * quot == threads * quot - quot;
  }

  /** The chunks follow each other without gap or overlap from the first line to the last. */
  lemma ChunksPartition(qty: nat, threads: nat, i: nat)
    requires i < threads
    ensures ChunkStart(qty, threads, 0) == 0
    ensures ChunkStart(qty, threads, i) + ChunkSize(qty, threads, i)
         == if i == threads - 1 then qty else ChunkStart(qty, threads, i + 1)
  {
    ChunksFit(qty, threads);
    assert (i + 1) * (qty / threads) == i * (qty / threads) + qty / threads;
  }

  // ----- one thread

  /** Splits off the next field; the rest is absent once the line is used up. */
  method MemSep(s: string) returns (field: string, rest: Option<string>)
    ensures Fields(s) == [field] + (if rest.Some? then Fields(rest.value) else [])
    ensures rest.Some? ==> |rest.value| < |s|
  {
    var n := 0;
    while n < |s| && s[n] != '\t'
      invariant 0 <= n <= |s| && forall i :: 0 <= i < n ==> s[i] != '\t'
    {
      n := n + 1;
    }
    assert FieldLength(s) == n;
    field := s[..n];
    assert n == |s| ==> field == s && [s] + [] == [s];
    rest := if n < |s| then Some(s[n + 1..]) else None;
  }

  /** The kind and language among the fields that are left. */
  method ReadKind(rest: string) returns (kind: char, lang: Option<string>)
    ensures kind == KindOf(Fields(rest)) && lang == LanguageOf(Fields(rest))
  {
    kind, lang := '\0', None;
    var cpy := Some(rest);
    ghost var seen: seq<string> := [];
    while cpy.Some?
      invariant Fields(rest) == seen + if cpy.Some? then Fields(cpy.value) else []
      invariant kind == KindOf(seen) && lang == LanguageOf(seen)
      decreases if cpy.Some? then |cpy.value| + 1 else 0
    {
      ghost var left := Fields(cpy.value);
      var tok;
      tok, cpy := MemSep(cpy.value);
      Regroup(Fields(rest), seen, tok, left, if cpy.Some? then Fields(cpy.value) else []);
      if |tok| == 1 {
        kind := tok[0];
      } else if LANGUAGE <= tok {
        lang := Some(tok[|LANGUAGE|..]);
      }
      FieldRead(seen, tok);
      seen := seen + [tok];
    }
    assert seen == Fields(rest);
  }

  lemma Regroup(all: seq<string>, seen: seq<string>, tok: string, left: seq<string>, next: seq<string>)
    requires all == seen + left && left == [tok] + next
    ensures all == seen + [tok] + next
  {
  }

  lemma FieldRead(seen: seq<string>, tok: string)
    ensures KindOf(seen + [tok]) == if |tok| == 1 then tok[0] else KindOf(seen)
    ensures LanguageOf(seen + [tok]) == if LANGUAGE <= tok then Some(tok[|LANGUAGE|..]) else LanguageOf(seen)
    ensures |tok| == 1 ==> !(LANGUAGE <= tok)
  {
    assert (seen + [tok])[..|seen|] == seen;
    assert |LANGUAGE| == 9;
  }

  lemma FourthOn(all: seq<string>, a: string, b: string, c: string, r: seq<string>, s: seq<string>, t: seq<string>)
    requires all == [a] + r && r == [b] + s && s == [c] + t
    ensures |all| == 3 + |t| && all[0] == a && all[1] == b && all[3..] == t
  {
  }

  method InspectLine(q: Query, line: string) returns (tag: Option<Tag>)
    ensures tag == Accepted(q, line)
  {
    if |line| == 0 || line[0] == '!' {
      return None;
    }
    var name, afterName := MemSep(line);
    if afterName.None? {
      return None;
    }
    var file, afterFile := MemSep(afterName.value);
    if afterFile.None? {
      return None;
    }
    var pattern, afterPattern := MemSep(afterFile.value);
    if afterPattern.None? {
      return None;
    }
    var kind, lang := ReadKind(afterPattern.value);
    FourthOn(Fields(line), name, file, pattern, Fields(afterName.value), Fields(afterFile.value), Fields(afterPattern.value));
    tag := Judged(q, name, file, kind, lang);
  }

  method DoTokSearch(q: Query, tags: seq<string>, start: nat, num: nat) returns (ret: Option<seq<Tag>>)
    requires start + num <= |tags|
    ensures ret == if num == 0 then None else Some(Found(q, tags[start..start + num]))
  {
    if num == 0 {
      return None;
    }
    var list: seq<Tag> := [];
    ghost var lst := tags[start..start + num];
    for i := 0 to num
      invariant list == Found(q, lst[..i])
    {
      var tag := InspectLine(q, tags[start + i]);
      assert lst[..i + 1][..i] == lst[..i];
      if tag.Some? {
        list := list + [tag.value];
      }
    }
    assert lst[..num] == lst;
    ret := Some(list);
  }

  // ----- all threads

  function Gathered(data: seq<Option<seq<Tag>>>): seq<Tag> {
    if |data| == 0 then []
    else
      var last := data[|data| - 1];
      Gathered(data[..|data| - 1]) + if last.Some? then last.value else []
  }

  /** The threads in the order in which they finish: every one once. */
  ghost predicate FinishOrder(order: seq<nat>, threads: nat) {
    && (forall i, j :: 0 <= i < j < |order| ==> order[i] != order[j])
    && (forall i :: i in order <==> 0 <= i < threads)
  }

  /**
   Starts a search per chunk. Each thread fills the slot of its own when it finishes; in whatever order
   they do, the slots hold the same lists in the end.
   */
  method LaunchThreads(q: Query, tags: seq<string>, threads: nat, order: seq<nat>) returns (data: seq<Option<seq<Tag>>>)
    requires threads > 0 && FinishOrder(order, threads)
    ensures |data| == threads && Gathered(data) == Found(q, tags)
  {
    data := seq(threads, _ => None);
    for j := 0 to |order|
      invariant |data| == threads
      invariant forall k :: k in order[..j] ==> 0 <= k < threads && data[k] == ChunkSlot(q, tags, threads, k)
    {
      var i := order[j];
      assert i in order;
      assert order[..j + 1] == order[..j] + [i];
      var ret := LaunchOne(q, tags, threads, i);
      data := data[i := ret];
    }
    assert order[..|order|] == order;
    AllSlots(q, tags, threads, data);
  }

  /** What a thread finds, however the others run. */
  function ChunkSlot(q: Query, tags: seq<string>, threads: nat, i: nat): Option<seq<Tag>>
    requires i < threads
  {
    ChunkEndsInside(|tags|, threads, i);
    Slot(q, tags, ChunkStart(|tags|, threads, i), ChunkSize(|tags|, threads, i))
  }

  /** The slots of all threads, gathered in the threads' order, are what one thread alone would find. */
  lemma AllSlots(q: Query, tags: seq<string>, threads: nat, data: seq<Option<seq<Tag>>>)
    requires threads > 0 && |data| == threads && forall k :: 0 <= k < threads ==> data[k] == ChunkSlot(q, tags, threads, k)
    ensures Gathered(data) == Found(q, tags)
  {
    LaunchedSoFar(q, tags, threads, data, threads);
    assert data[..threads] == data && tags[..|tags|] == tags;
  }

  lemma {:induction false} LaunchedSoFar(q: Query, tags: seq<string>, threads: nat, data: seq<Option<seq<Tag>>>, i: nat)
    requires 0 < threads == |data| && i <= threads && forall k :: 0 <= k < threads ==> data[k] == ChunkSlot(q, tags, threads, k)
    ensures Launched(q, tags, threads, data[..i], i)
  {
    if i == 0 {
      LaunchBegins(q, tags, threads);
    } else {
      LaunchedSoFar(q, tags, threads, data, i - 1);
      LaunchContinues(q, tags, threads, data[..i - 1], i - 1);
      assert data[..i] == data[..i - 1] + [data[i - 1]];
    }
  }

  function Reached(qty: nat, threads: nat, i: nat): nat
    requires threads > 0 && i <= threads
  {
    if i < threads then ChunkStart(qty, threads, i) else qty
  }

  /** The first i slots hold what was found in the first i chunks. */
  predicate Launched(q: Query, tags: seq<string>, threads: nat, data: seq<Option<seq<Tag>>>, i: nat)
    requires threads > 0
  {
    && i <= threads && |data| == i && Reached(|tags|, threads, i) <= |tags|
    && Gathered(data) == Found(q, tags[..Reached(|tags|, threads, i)])
  }

  lemma LaunchBegins(q: Query, tags: seq<string>, threads: nat)
    requires threads > 0
    ensures Launched(q, tags, threads, [], 0)
  {
    ChunksPartition(|tags|, threads, 0);
  }

  function Slot(q: Query, tags: seq<string>, start: nat, num: nat): Option<seq<Tag>>
    requires start + num <= |tags|
  {
    if num == 0 then None else Some(Found(q, tags[start..start + num]))
  }

  lemma LaunchContinues(q: Query, tags: seq<string>, threads: nat, data: seq<Option<seq<Tag>>>, i: nat)
    requires i < threads && Launched(q, tags, threads, data, i)
    ensures var start, num := ChunkStart(|tags|, threads, i), ChunkSize(|tags|, threads, i);
            start + num <= |tags| && Launched(q, tags, threads, data + [Slot(q, tags, start, num)], i + 1)
  {
    var start, num := ChunkStart(|tags|, threads, i), ChunkSize(|tags|, threads, i);
    ChunkEndsInside(|tags|, threads, i);
    ChunksPartition(|tags|, threads, i);
    FoundChunk(q, tags, start, num);
    GatheredMore(data, Slot(q, tags, start, num));
    assert Reached(|tags|, threads, i + 1) == start + num;
  }

  method LaunchOne(q: Query, tags: seq<string>, threads: nat, i: nat) returns (ret: Option<seq<Tag>>)
    requires i < threads
    ensures ret == ChunkSlot(q, tags, threads, i)
  {
    ChunkEndsInside(|tags|, threads, i);
    var quot := |tags| / threads;
    ChunksFit(|tags|, threads);
    var num := if i == threads - 1 then |tags| - (threads - 1) * quot else quot;
    ret := DoTokSearch(q, tags, i * quot, num);
  }

  lemma FoundChunk(q: Query, tags: seq<string>, start: nat, num: nat)
    requires start + num <= |tags|
    ensures Found(q, tags[..start + num]) == Found(q, tags[..start]) + Found(q, tags[start..start + num])
    ensures num == 0 ==> Found(q, tags[start..start + num]) == []
  {
    assert tags[..start + num] == tags[..start] + tags[start..start + num];
    FoundConcat(q, tags[..start], tags[start..start + num]);
  }

  lemma GatheredMore(data: seq<Option<seq<Tag>>>, ret: Option<seq<Tag>>)
    ensures Gathered(data + [ret]) == Gathered(data) + if ret.Some? then ret.value else []
  {
    assert (data + [ret])[..|data|] == data;
  }

  lemma ChunkEndsInside(qty: nat, threads: nat, i: nat)
    requires i < threads
    ensures ChunkStart(qty, threads, i) + ChunkSize(qty, threads, i) <= qty
  {
    ChunksPartition(qty, threads, i);
    if i < threads - 1 {
      ChunksFit(qty, threads);
      assert (i + 1) * (qty / threads) <= (threads - 1) * (qty / threads);
    }
  }

  /** How many tags the threads found together. */
  method JoinThreads(data: seq<Option<seq<Tag>>>) returns (size: nat)
    ensures size == |Gathered(data)|
  {
    size := 0;
    for i := 0 to |data|
      invariant size == |Gathered(data[..i])|
    {
      assert data[..i + 1][..i] == data[..i];
      if data[i].Some? {
        size := size + |data[i].value|;
      }
    }
    assert data[..|data|] == data;
  }

  const NO_TAG := Tag('\0', "")

  /** Keeps each tag that differs from the one kept before it, starting from a tag of kind 0 and empty name. */
  method RemoveDuplicateTags(list: seq<Tag>) returns (repl: seq<Tag>)
    requires Sorted(list)
    ensures StrictlyIncreasing(repl)
    ensures forall t :: t in repl <==> t in list && t != NO_TAG
  {
    repl := [];
    var last := NO_TAG;
    for i := 0 to |list|
      invariant StrictlyIncreasing(repl) && last == (if |repl| > 0 then repl[|repl| - 1] else NO_TAG)
      invariant last == if i > 0 then list[i - 1] else NO_TAG
      invariant forall t :: t in repl <==> t in list[..i] && t != NO_TAG
      invariant i == 0 ==> |repl| == 0
    {
      assert list[..i + 1] == list[..i] + [list[i]];
      if list[i].kind != last.kind || list[i].name != last.name {
        LastIsLess(list, i, last);
        KeepIncreasing(repl, list[i]);
        last := list[i];
        repl := repl + [last];
      }
    }
    assert list[..|list|] == list;
  }

  lemma LastIsLess(list: seq<Tag>, i: nat, last: Tag)
    requires Sorted(list) && i < |list| && last == (if i > 0 then list[i - 1] else NO_TAG) && list[i] != last
    ensures TagCmp(last, list[i]) < 0 && list[i] != NO_TAG
  {
    Signs(last, list[i]);
    NoTagIsLeast(list[i]);
    NoTagIsLeast(last);
    if i > 0 && list[i] == NO_TAG {
      Signs(last, NO_TAG);
    }
  }

  lemma NoTagIsLeast(t: Tag)
    ensures TagCmp(NO_TAG, t) <= 0
  {
  }

  lemma KeepIncreasing(repl: seq<Tag>, t: Tag)
    requires StrictlyIncreasing(repl) && (|repl| > 0 ==> TagCmp(repl[|repl| - 1], t) < 0)
    ensures StrictlyIncreasing(repl + [t])
  {
    forall i | 0 <= i < |repl|
      ensures TagCmp(repl[i], t) < 0
    {
      TagCmpIsTotalOrder(repl[i], repl[|repl| - 1], t);
    }
  }

  method CombineData(data: seq<Option<seq<Tag>>>) returns (ret: seq<Tag>)
    ensures StrictlyIncreasing(ret)
    ensures forall t :: t in ret <==> t in Gathered(data) && t != NO_TAG
  {
    var alldata: seq<Tag> := [];
    for i := 0 to |data|
      invariant alldata == Gathered(data[..i])
    {
      assert data[..i + 1][..i] == data[..i];
      if data[i].Some? {
        alldata := alldata + data[i].value;
      }
    }
    assert data[..|data|] == data;
    SortIsSorted(alldata);
    SortKeepsMembers(alldata);
    ret := RemoveDuplicateTags(Sort(alldata));
  }

  /** The tag of some line, unless it is the one the removal of duplicates starts from. */
  ghost predicate Wanted(q: Query, tags: seq<string>, t: Tag) {
    t != NO_TAG && exists line :: line in tags && Accepted(q, line) == Some(t)
  }

  /** The list for a buffer: every wanted tag once, in increasing order. */
  ghost predicate Answers(q: Query, tags: seq<string>, list: seq<Tag>) {
    StrictlyIncreasing(list) && forall t :: t in list <==> Wanted(q, tags, t)
  }

  /** Nothing only when the buffer has no words or no line is accepted; otherwise exactly the wanted tags. */
  method ProcessTags(q: Query, tags: seq<string>, threads: nat, order: seq<nat>) returns (ret: Option<seq<Tag>>)
    requires threads > 0 && FinishOrder(order, threads)
    ensures ret.None? <==> |q.words| == 0 || forall line :: line in tags ==> Accepted(q, line).None?
    ensures ret.Some? ==> Answers(q, tags, ret.value)
  {
    if |q.words| == 0 {
      return None;
    }
    if |tags| == 0 {
      return None;
    }
    var data := LaunchThreads(q, tags, threads, order);
    var size := JoinThreads(data);
    NothingFound(q, tags);
    if size == 0 {
      return None;
    }
    var list := CombineData(data);
    forall t
      ensures t in list <==> Wanted(q, tags, t)
    {
      FoundMembers(q, tags, t);
    }
    ret := Some(list);
  }

  lemma NothingFound(q: Query, tags: seq<string>)
    ensures Found(q, tags) == [] <==> forall line :: line in tags ==> Accepted(q, line).None?
  {
    if line :| line in tags && Accepted(q, line).Some? {
      FoundMembers(q, tags, Accepted(q, line).value);
    }
    if |Found(q, tags)| > 0 {
      FoundMembers(q, tags, Found(q, tags)[0]);
    }
  }

  /** There is only one such list, so neither the number of threads, nor the order they finish in, nor the sort can change it. */
  lemma OneAnswer(q: Query, tags: seq<string>, a: seq<Tag>, b: seq<Tag>)
    requires Answers(q, tags, a) && Answers(q, tags, b)
    ensures a == b
  {
    IncreasingIsUnique(a, b);
  }

  // ----- the tag that is lost

  lemma {:induction false} EquivalentIsKind(equiv: seq<(char, char)>, kind: char)
    requires kind != '\0' && forall i :: 0 <= i < |equiv| ==> equiv[i].1 != '\0'
    ensures Equivalent(equiv, kind) != '\0'
  {
    if |equiv| > 0 && kind != equiv[0].0 {
      EquivalentIsKind(equiv[1..], kind);
    }
  }

  /** Unless an equivalence maps to NUL no line contributes the tag that the removal of duplicates drops. */
  lemma NoTagNeedsNulKind(q: Query, line: string)
    requires forall i :: 0 <= i < |q.equiv| ==> q.equiv[i].1 != '\0'
    ensures Accepted(q, line) != Some(NO_TAG)
  {
    if Accepted(q, line).Some? {
      EquivalentIsKind(q.equiv, KindOf(Fields(line)[3..]));
    }
  }

  /** The line of a C function. */
  lemma FunctionFields(name: string, file: string, pattern: string)
    requires TabFree(name) && TabFree(file) && TabFree(pattern)
    ensures var line := Tabbed([name, file, pattern, "f", "language:C"]);
            && Fields(line) == [name, file, pattern, "f", "language:C"]
            && |line| > 0 && line[0] == (if |name| > 0 then name[0] else '\t')
            && KindOf(Fields(line)[3..]) == 'f' && LanguageOf(Fields(line)[3..]) == Some("C")
  {
    var f := [name, file, pattern, "f", "language:C"];
    FieldsOfTabbed(f);
    assert f[1..] == [file, pattern, "f", "language:C"] && f[3..] == ["f"] + ["language:C"];
    FieldRead(["f"], "language:C");
    FieldRead([], "f");
    assert [] + ["f"] == ["f"];
    assert LANGUAGE <= "language:C" && "language:C"[|LANGUAGE|..] == "C";
  }

  /** A function of the buffer's own file is accepted under any name that is not ignored, blanks included. */
  lemma OwnFunctionIsAccepted(q: Query, name: string, pattern: string)
    requires TabFree(name) && TabFree(q.filename) && TabFree(pattern) && (|name| > 0 ==> name[0] != '!')
    requires q.lang == "C" && 'f' in q.order && name !in q.skip && q.equiv == []
    ensures Accepted(q, Tabbed([name, q.filename, pattern, "f", "language:C"])) == Some(Tag('f', name))
  {
    FunctionFields(name, q.filename, pattern);
  }

  /** With one that does, a line of the buffer's own file without a name is found and then lost. */
  lemma NoTagIsFoundAndLost(q: Query, pattern: string)
    requires TabFree(q.filename) && TabFree(pattern) && q.lang == "C" && "" !in q.skip && q.equiv == [('f', '\0')]
    ensures var line := Tabbed(["", q.filename, pattern, "f", "language:C"]);
            Accepted(q, line) == Some(NO_TAG) && Answers(q, [line], [])
  {
    FunctionFields("", q.filename, pattern);
    var line := Tabbed(["", q.filename, pattern, "f", "language:C"]);
    assert Equivalent(q.equiv, 'f') == '\0';
    assert forall l :: l in [line] ==> l == line;
  }
}
