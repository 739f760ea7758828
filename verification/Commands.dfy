/** Turning a sorted tag list into one highlighting command per kind. */
module Commands {
  import opened Bits
  import opened Mpack
  import opened Reading
  import opened Codec
  import opened Format
  import opened Wrappers
  import opened TagOrder
  import opened TagPipeline
  import opened LinkedList
  import opened NameLists
  import opened Requests
  import opened Batch

  /** How a kind is highlighted, as set in the editor. */
  datatype Info = Info(kind: char, group: string, prefix: Option<string>, suffix: Option<string>)

  datatype Filetype = Filetype(vimName: string, globalAllbut: Option<string>, ftAllbut: Option<string>)

  // ----- the text of a command

  function GroupId(ft: Filetype, info: Info): string {
    "_tag_highlight_" + ft.vimName + "_" + [info.kind] + "_" + info.group
  }

  function Heading(ft: Filetype, info: Info): string {
    "silent! syntax clear " + GroupId(ft, info) + " | "
  }

  function Contained(ft: Filetype): string {
    match (ft.globalAllbut, ft.ftAllbut)
    case (Some(global), Some(own)) => " containedin=ALLBUT," + (global + "," + own)
    case (Some(global), None) => " containedin=ALLBUT," + global
    case (None, Some(own)) => " containedin=ALLBUT," + own
    case (None, None) => ""
  }

  function Link(ft: Filetype, info: Info): string {
    "display | hi def link " + GroupId(ft, info) + " " + info.group
  }

  predicate MatchForm(info: Info) { info.prefix.Some? || info.suffix.Some? }

  function OrElse(text: Option<string>, default: string): string {
    if text.Some? then text.value else default
  }

  function Opening(ft: Filetype, info: Info): string {
    Heading(ft, info)
    + if MatchForm(info) then "syntax match " + GroupId(ft, info) + " /" + OrElse(info.prefix, "\\C\\<") + "\\%("
      else " syntax keyword " + GroupId(ft, info) + " "
  }

  function Closing(ft: Filetype, info: Info): string {
    if MatchForm(info) then "\\)" + OrElse(info.suffix, "\\>") + "/" + Contained(ft) + " " + Link(ft, info)
    else Link(ft, info)
  }

  /** The names with the separator between them. */
  function Alternatives(names: seq<string>, sep: string): string {
    if |names| == 0 then ""
    else if |names| == 1 then names[0]
    else Alternatives(names[..|names| - 1], sep) + sep + names[|names| - 1]
  }

  function Listed(info: Info, names: seq<string>): string {
    if MatchForm(info) then Alternatives(names, "\\|") else Joined(names, " ")
  }

  function CommandText(ft: Filetype, info: Info, names: seq<string>): string {
    Opening(ft, info) + Listed(info, names) + Closing(ft, info)
  }

  /** Names are listed in their order: the list of more names is the two lists with the separator between them. */
  lemma {:induction false} AlternativesInOrder(a: seq<string>, b: seq<string>, sep: string)
    requires |a| > 0 && |b| > 0
    ensures Alternatives(a + b, sep) == Alternatives(a, sep) + sep + Alternatives(b, sep)
    decreases |b|
  {
    var n := |b| - 1;
    assert (a + b)[..|a| + n] == a + b[..n];
    if n == 0 {
      assert a + b[..n] == a;
    } else {
      AlternativesInOrder(a, b[..n], sep);
      LastTwo(Alternatives(a, sep) + sep, Alternatives(b[..n], sep), sep);
      LastTwo(Alternatives(a, sep) + sep, Alternatives(b[..n], sep) + sep, b[n]);
    }
  }

  lemma OneNameListed(name: string, sep: string)
    ensures Joined([name], sep) == name + sep && Alternatives([name], sep) == name
  {
    assert [name][..0] == [];
    assert "" + name + sep == name + sep;
  }

  // ----- the text written out

  ghost predicate IsGroup(ft: Filetype, info: Info, id: string) {
    id == "_tag_highlight_" + ft.vimName + "_" + [info.kind] + "_" + info.group
  }

  /** Where the group may not stand: the global list and the filetype's own, whichever are set. */
  ghost predicate IsExclusion(ft: Filetype, clause: string) {
    && (ft.globalAllbut.None? && ft.ftAllbut.None? ==> clause == "")
    && (ft.globalAllbut.Some? && ft.ftAllbut.None? ==> clause == " containedin=ALLBUT," + ft.globalAllbut.value)
    && (ft.globalAllbut.None? && ft.ftAllbut.Some? ==> clause == " containedin=ALLBUT," + ft.ftAllbut.value)
    && (ft.globalAllbut.Some? && ft.ftAllbut.Some?
        ==> clause == " containedin=ALLBUT," + ft.globalAllbut.value + "," + ft.ftAllbut.value)
  }

  /** A pattern: some text, one of the names, some text. */
  function MatchCommand(id: string, before: string, names: string, after: string, clause: string, group: string): string {
    "silent! syntax clear " + id + " | " + "syntax match " + id + " /" + before + "\\%(" + names + "\\)" + after + "/" + clause
    + " " + "display | hi def link " + id + " " + group
  }

  /** Keywords: the names with a blank behind each. */
  function KeywordCommand(id: string, names: string, group: string): string {
    "silent! syntax clear " + id + " | " + " syntax keyword " + id + " " + names + "display | hi def link " + id + " " + group
  }

  /**
   A pattern as soon as a prefix or a suffix is set, the other one being the start or the end of a word by
   default, and keywords, which are contained everywhere, if neither is.
   */
  ghost predicate HasForm(info: Info, id: string, clause: string, names: seq<string>, cmd: string) {
    match (info.prefix, info.suffix)
    case (Some(p), Some(s)) => cmd == MatchCommand(id, p, Alternatives(names, "\\|"), s, clause, info.group)
    case (Some(p), None) => cmd == MatchCommand(id, p, Alternatives(names, "\\|"), "\\>", clause, info.group)
    case (None, Some(s)) => cmd == MatchCommand(id, "\\C\\<", Alternatives(names, "\\|"), s, clause, info.group)
    case (None, None) => cmd == KeywordCommand(id, Joined(names, " "), info.group)
  }

  /** The whole command of a kind's names. */
  ghost predicate IsCommand(ft: Filetype, info: Info, names: seq<string>, cmd: string) {
    forall id, clause :: IsGroup(ft, info, id) && IsExclusion(ft, clause) ==> HasForm(info, id, clause, names, cmd)
  }

  lemma CommandIsWrittenOut(ft: Filetype, info: Info, names: seq<string>)
    ensures IsCommand(ft, info, names, CommandText(ft, info, names))
  {
    forall id, clause | IsGroup(ft, info, id) && IsExclusion(ft, clause)
      ensures id == GroupId(ft, info) && clause == Contained(ft)
    {
      ExclusionIsOne(ft, clause);
    }
    if MatchForm(info) {
      MatchPieces(GroupId(ft, info), OrElse(info.prefix, "\\C\\<"), Alternatives(names, "\\|"), OrElse(info.suffix, "\\>"),
                  Contained(ft), info.group);
    } else {
      KeywordPieces(GroupId(ft, info), Joined(names, " "), info.group);
    }
  }

  lemma ExclusionIsOne(ft: Filetype, clause: string)
    requires IsExclusion(ft, clause)
    ensures clause == Contained(ft)
  {
    if ft.globalAllbut.Some? && ft.ftAllbut.Some? {
      CommaBetween(" containedin=ALLBUT,", ft.globalAllbut.value, ft.ftAllbut.value);
    }
  }

  lemma CommaBetween(a: string, b: string, c: string)
    ensures a + (b + "," + c) == a + b + "," + c
  {
  }

  lemma MatchPieces(id: string, before: string, names: string, after: string, clause: string, group: string)
    ensures ("silent! syntax clear " + id + " | ") + ("syntax match " + id + " /" + before + "\\%(") + names
            + ("\\)" + after + "/" + clause + " " + ("display | hi def link " + id + " " + group))
         == MatchCommand(id, before, names, after, clause, group)
  {
    var clear := "silent! syntax clear " + id + " | ";
    var head := clear + "syntax match " + id + " /" + before + "\\%(" + names;
    var link := "display | hi def link " + id + " " + group;
    FiveInFront(clear, "syntax match ", id, " /", before, "\\%(");
    FiveInFront(head, "\\)", after, "/", clause, " " + link);
    FiveInFront(head + "\\)" + after + "/" + clause, " ", "display | hi def link ", id, " ", group);
    LastFour(" ", "display | hi def link ", id, " ", group);
  }

  lemma FiveInFront(x: string, a: string, b: string, c: string, d: string, e: string)
    ensures x + (a + b + c + d + e) == x + a + b + c + d + e
  {
    LastTwo(x, a + b + c + d, e);
    LastTwo(x, a + b + c, d);
    LastTwo(x, a + b, c);
    LastTwo(x, a, b);
  }

  lemma LastFour(x: string, a: string, b: string, c: string, d: string)
    ensures x + (a + b + c + d) == x + a + b + c + d
  {
    LastTwo(x, a + b + c, d);
    LastTwo(x, a + b, c);
    LastTwo(x, a, b);
  }

  lemma LastTwo(x: string, y: string, z: string)
    ensures x + (y + z) == x + y + z
  {
  }

  lemma KeywordPieces(id: string, names: string, group: string)
    ensures ("silent! syntax clear " + id + " | ") + (" syntax keyword " + id + " ") + names
            + ("display | hi def link " + id + " " + group)
         == KeywordCommand(id, names, group)
  {
    var clear := "silent! syntax clear " + id + " | ";
    LastTwo(clear, " syntax keyword " + id, " ");
    LastTwo(clear, " syntax keyword ", id);
    LastFour(clear + " syntax keyword " + id + " " + names, "display | hi def link ", id, " ", group);
  }

  // ----- the names can be read back from the text

  lemma {:induction false} AlternativesThenSeparator(names: seq<string>, sep: string)
    requires |names| > 0
    ensures Alternatives(names, sep) + sep == Joined(names, sep)
    decreases |names|
  {
    var n := |names| - 1;
    if n == 0 {
      assert names[..0] == [];
      assert "" + names[0] + sep == names[0] + sep;
    } else {
      AlternativesThenSeparator(names[..n], sep);
    }
  }

  function Separator(info: Info): string { if MatchForm(info) then "\\|" else " " }

  predicate Readable(info: Info, names: seq<string>) { AllSepFree(names, Separator(info)) }

  /** Two commands of a kind have the same text if and only if their names, each with the separator, have. */
  lemma SameTextIff(ft: Filetype, info: Info, a: seq<string>, b: seq<string>)
    requires |a| > 0 && |b| > 0
    ensures CommandText(ft, info, a) == CommandText(ft, info, b) <==> Joined(a, Separator(info)) == Joined(b, Separator(info))
  {
    if CommandText(ft, info, a) == CommandText(ft, info, b) {
      SameMiddle(Opening(ft, info), Listed(info, a), Listed(info, b), Closing(ft, info));
    }
    if MatchForm(info) {
      AlternativesThenSeparator(a, Separator(info));
      AlternativesThenSeparator(b, Separator(info));
      if Joined(a, Separator(info)) == Joined(b, Separator(info)) {
        SameFront(Listed(info, a), Listed(info, b), Separator(info));
      }
    }
  }

  lemma SameFront(x: string, y: string, sep: string)
    requires x + sep == y + sep
    ensures x == y
  {
    assert x == (x + sep)[..|x|] && y == (y + sep)[..|y|];
  }

  /** Names without separators inside can be told from the text. */
  lemma NamesCanBeReadBack(ft: Filetype, info: Info, a: seq<string>, b: seq<string>)
    requires |a| > 0 && |b| > 0 && Readable(info, a) && Readable(info, b)
    requires CommandText(ft, info, a) == CommandText(ft, info, b)
    ensures a == b
  {
    SameTextIff(ft, info, a, b);
    JoinedDetermines(a, b, Separator(info));
  }

  /** In both forms the text tells the names from all others without separators if and only if they have none inside. */
  lemma NamesCanBeReadBackIff(ft: Filetype, info: Info, a: seq<string>)
    requires |a| > 0
    ensures Readable(info, a)
       <==> forall b :: |b| > 0 && Readable(info, b) && CommandText(ft, info, b) == CommandText(ft, info, a) ==> b == a
  {
    if Readable(info, a) {
      forall b | |b| > 0 && Readable(info, b) && CommandText(ft, info, b) == CommandText(ft, info, a)
        ensures b == a
      {
        NamesCanBeReadBack(ft, info, b, a);
      }
    } else {
      SeparatorsAreAmbiguous(ft, info, a);
    }
  }

  /** A separator inside a name makes the command that of the name's parts. */
  lemma SeparatorsAreAmbiguous(ft: Filetype, info: Info, a: seq<string>)
    requires |a| > 0 && !Readable(info, a)
    ensures var parts := SplitNames(a, Separator(info));
            parts != a && Readable(info, parts) && CommandText(ft, info, parts) == CommandText(ft, info, a)
  {
    var sep := Separator(info);
    SplitNamesJoined(a, sep);
    SameTextIff(ft, info, SplitNames(a, sep), a);
  }

  /** A function with a blank in its name is a wanted tag of its own file, and its command is that of two others. */
  lemma BlankNameIsWantedAndAmbiguous(ft: Filetype, info: Info, q: Query, name: string, pattern: string)
    requires !MatchForm(info) && ' ' in name && name[0] != '!'
    requires TabFree(name) && TabFree(q.filename) && TabFree(pattern)
    requires q.lang == "C" && 'f' in q.order && name !in q.skip && q.equiv == []
    ensures Accepted(q, Tabbed([name, q.filename, pattern, "f", "language:C"])) == Some(Tag('f', name))
    ensures exists parts :: parts != [name] && |parts| > 0 && CommandText(ft, info, parts) == CommandText(ft, info, [name])
  {
    OwnFunctionIsAccepted(q, name, pattern);
    var i :| 0 <= i < |name| && name[i] == ' ';
    assert SepAt(name, i, Separator(info));
    assert !SepFree([name][0], Separator(info));
    SeparatorsAreAmbiguous(ft, info, [name]);
  }

  lemma SameMiddle(before: string, x: string, y: string, after: string)
    requires before + x + after == before + y + after
    ensures x == y
  {
    assert |x| == |y|;
    assert x == (before + x + after)[|before|..|before| + |x|];
    assert y == (before + y + after)[|before|..|before| + |y|];
  }

  // ----- the tags of a kind

  function OfKind(tags: seq<Tag>, kind: char): seq<Tag> {
    if |tags| == 0 then []
    else OfKind(tags[..|tags| - 1], kind) + if tags[|tags| - 1].kind == kind then [tags[|tags| - 1]] else []
  }

  function Names(tags: seq<Tag>): (names: seq<string>)
    ensures |names| == |tags|
  {
    seq(|tags|, i requires 0 <= i < |tags| => tags[i].name)
  }

  /** Kinds never decrease along the list. */
  predicate ByKind(tags: seq<Tag>) {
    forall i, j :: 0 <= i < j < |tags| ==> tags[i].kind <= tags[j].kind
  }

  lemma IncreasingIsByKind(tags: seq<Tag>)
    requires StrictlyIncreasing(tags)
    ensures ByKind(tags)
  {
    forall i, j | 0 <= i < j < |tags|
      ensures tags[i].kind <= tags[j].kind
    {
      assert TagCmp(tags[i], tags[j]) < 0;
    }
  }

  /** The tags from i to j are of a kind, the one at j and those before i are not; an empty run stands at the end. */
  predicate RunAt(tags: seq<Tag>, kind: char, i: nat, j: nat) {
    && ByKind(tags) && i <= j <= |tags|
    && (forall k :: 0 <= k < i ==> tags[k].kind != kind)
    && (forall k :: i <= k < j ==> tags[k].kind == kind)
    && (i < j < |tags| ==> tags[j].kind != kind)
    && (i == j ==> i == |tags|)
  }

  lemma RunOfFewer(tags: seq<Tag>, kind: char, i: nat, j: nat) returns (i': nat, j': nat)
    requires |tags| > 0 && RunAt(tags, kind, i, j)
    ensures RunAt(tags[..|tags| - 1], kind, i', j')
    ensures tags[i..j] == tags[..|tags| - 1][i'..j'] + if tags[|tags| - 1].kind == kind then [tags[|tags| - 1]] else []
  {
    var n := |tags| - 1;
    if i < j < |tags| {
      assert tags[i].kind <= tags[j].kind <= tags[n].kind || j == n;
      i', j' := i, j;
    } else {
      i' := if i < n then i else n;
      j' := n;
    }
  }

  /** Equal kinds stand together, so the run that starts at the first tag of a kind is all of them. */
  lemma {:induction false} RunIsAll(tags: seq<Tag>, kind: char, i: nat, j: nat)
    requires RunAt(tags, kind, i, j)
    ensures OfKind(tags, kind) == tags[i..j]
    decreases |tags|
  {
    if |tags| > 0 {
      var i', j' := RunOfFewer(tags, kind, i, j);
      RunIsAll(tags[..|tags| - 1], kind, i', j');
    }
  }

  /** One command, for the run of tags of its kind that starts at a position. */
  method HandleKind(ft: Filetype, info: Info, tags: seq<Tag>, first: nat) returns (cmd: string)
    requires ByKind(tags) && StartsRun(tags, info.kind, first)
    ensures cmd == CommandText(ft, info, Names(OfKind(tags, info.kind)))
    ensures IsCommand(ft, info, Names(OfKind(tags, info.kind)), cmd)
  {
    CommandIsWrittenOut(ft, info, Names(OfKind(tags, info.kind)));
    var list;
    if MatchForm(info) {
      list := ListAlternatives(info.kind, tags, first, "\\|");
    } else {
      list := ListKeywords(info.kind, tags, first, " ");
    }
    cmd := Opening(ft, info) + list + Closing(ft, info);
  }

  /** The first tag of a kind is followed by others up to the first one of another kind. */
  predicate StartsRun(tags: seq<Tag>, kind: char, first: nat) {
    first < |tags| && tags[first].kind == kind && forall k :: 0 <= k < first ==> tags[k].kind != kind
  }

  method ListAlternatives(kind: char, tags: seq<Tag>, first: nat, sep: string) returns (list: string)
    requires ByKind(tags) && StartsRun(tags, kind, first)
    ensures list == Alternatives(Names(OfKind(tags, kind)), sep)
  {
    list := tags[first].name;
    var i := first + 1;
    NamesMore(tags, first, first);
    while i < |tags| && tags[i].kind == kind
      invariant first < i <= |tags|
      invariant forall k :: first <= k < i ==> tags[k].kind == kind
      invariant list == Alternatives(Names(tags[first..i]), sep)
    {
      NamesMore(tags, first, i);
      list := list + sep + tags[i].name;
      i := i + 1;
    }
    RunIsAll(tags, kind, first, i);
  }

  method ListKeywords(kind: char, tags: seq<Tag>, first: nat, sep: string) returns (list: string)
    requires ByKind(tags) && StartsRun(tags, kind, first)
    ensures list == Joined(Names(OfKind(tags, kind)), sep)
  {
    list := tags[first].name + sep;
    var i := first + 1;
    NamesMore(tags, first, first);
    assert "" + tags[first].name + sep == list;
    while i < |tags| && tags[i].kind == kind
      invariant first < i <= |tags|
      invariant forall k :: first <= k < i ==> tags[k].kind == kind
      invariant list == Joined(Names(tags[first..i]), sep)
    {
      NamesMore(tags, first, i);
      list := list + tags[i].name + sep;
      i := i + 1;
    }
    RunIsAll(tags, kind, first, i);
  }

  lemma NamesMore(tags: seq<Tag>, first: nat, i: nat)
    requires first <= i < |tags|
    ensures var names := Names(tags[first..i + 1]);
            |names| == i + 1 - first && names[i - first] == tags[i].name && names[..i - first] == Names(tags[first..i])
  {
  }

  // ----- the commands of a list

  predicate Has(tags: seq<Tag>, kind: char) { exists k :: 0 <= k < |tags| && tags[k].kind == kind }

  /** One command for every kind that some tag has, in the order of the kinds. */
  function KindCommands(ft: Filetype, infos: seq<Info>, tags: seq<Tag>): seq<string> {
    if |infos| == 0 then []
    else KindCommands(ft, infos[..|infos| - 1], tags) + KindCommand(ft, infos[|infos| - 1], tags)
  }

  function KindCommand(ft: Filetype, info: Info, tags: seq<Tag>): seq<string> {
    if Has(tags, info.kind) then [CommandText(ft, info, Names(OfKind(tags, info.kind)))] else []
  }

  predicate TextsFit(cmds: seq<string>) { forall k :: 0 <= k < |cmds| ==> |cmds[k]| <= UINT32_MAX }

  function Texts(cmds: seq<string>): (texts: seq<Bytes>)
    requires TextsFit(cmds)
    ensures |texts| == |cmds|
  {
    seq(|cmds|, k requires 0 <= k < |cmds| => Ascii(cmds[k]))
  }

  const OWN_SYNTAX := "ownsyntax"
  const COMMAND := "nvim_command"

  function AllCommands(ft: Filetype, infos: seq<Info>, tags: seq<Tag>): seq<string> {
    [OWN_SYNTAX] + KindCommands(ft, infos, tags)
  }

  /** The arrays hold exactly these commands. */
  ghost predicate HoldsCommands(calls: ArgArray, cmds: seq<string>)
    reads calls, calls.fmt, calls.args
  {
    && calls.Valid() && calls.mlen >= 2 && TextsFit(cmds)
    && calls.Formats() == CommandFormats(|cmds|)
    && calls.Arguments() == CommandArguments(Ascii(COMMAND), Texts(cmds))
  }

  /** The new batch: "ownsyntax", then one command for each kind that occurs, with all its tags. */
  method UpdateCommands(ft: Filetype, infos: seq<Info>, tags: seq<Tag>) returns (calls: ArgArray)
    requires StrictlyIncreasing(tags) && TextsFit(KindCommands(ft, infos, tags))
    ensures fresh(calls) && HoldsCommands(calls, AllCommands(ft, infos, tags))
    ensures AllCommands(ft, infos, tags)[0] == "ownsyntax"
  {
    IncreasingIsByKind(tags);
    calls := new ArgArray(16);
    ghost var cmds: seq<string> := [];
    AddCommand(calls, OWN_SYNTAX, cmds);
    cmds := cmds + [OWN_SYNTAX];
    for i := 0 to |infos|
      invariant fresh(calls) && fresh(calls.fmt) && fresh(calls.args)
      invariant cmds == AllCommands(ft, infos[..i], tags) && HoldsCommands(calls, cmds)
    {
      OneInfoMore(ft, infos, tags, i);
      AddKind(calls, ft, infos[i], tags, cmds);
      cmds := cmds + KindCommand(ft, infos[i], tags);
    }
    assert infos[..|infos|] == infos;
  }

  lemma OneInfoMore(ft: Filetype, infos: seq<Info>, tags: seq<Tag>, i: nat)
    requires i < |infos| && TextsFit(KindCommands(ft, infos, tags))
    ensures TextsFit(KindCommand(ft, infos[i], tags))
    ensures AllCommands(ft, infos[..i + 1], tags) == AllCommands(ft, infos[..i], tags) + KindCommand(ft, infos[i], tags)
  {
    var more := KindCommands(ft, infos[..i + 1], tags);
    assert infos[..i + 1][..i] == infos[..i];
    FitsSoFar(ft, infos, tags, i + 1);
    forall k | 0 <= k < |KindCommand(ft, infos[i], tags)|
      ensures |KindCommand(ft, infos[i], tags)[k]| <= UINT32_MAX
    {
      assert KindCommand(ft, infos[i], tags)[k] == more[|more| - 1];
    }
  }

  /** Adds the command of a kind if some tag has that kind. */
  method AddKind(calls: ArgArray, ft: Filetype, info: Info, tags: seq<Tag>, ghost cmds: seq<string>)
    requires HoldsCommands(calls, cmds) && ByKind(tags) && TextsFit(KindCommand(ft, info, tags))
    modifies calls, calls.fmt, calls.args
    ensures HoldsCommands(calls, cmds + KindCommand(ft, info, tags))
    ensures calls.fmt == old(calls.fmt) || fresh(calls.fmt)
    ensures calls.args == old(calls.args) || fresh(calls.args)
  {
    var ctr := FindKind(tags, info.kind);
    if ctr != |tags| {
      var cmd := HandleKind(ft, info, tags, ctr);
      KindCommandFits(ft, info, tags, cmd);
      AddCommand(calls, cmd, cmds);
    } else {
      assert cmds + KindCommand(ft, info, tags) == cmds;
    }
  }

  /** The first tag of a kind, or the number of tags if there is none. */
  method FindKind(tags: seq<Tag>, kind: char) returns (ctr: nat)
    ensures if ctr == |tags| then !Has(tags, kind) else StartsRun(tags, kind, ctr)
    ensures ctr < |tags| ==> Has(tags, kind)
  {
    ctr := 0;
    while ctr < |tags| && tags[ctr].kind != kind
      invariant 0 <= ctr <= |tags|
      invariant forall k :: 0 <= k < ctr ==> tags[k].kind != kind
    {
      ctr := ctr + 1;
    }
  }

  lemma KindCommandFits(ft: Filetype, info: Info, tags: seq<Tag>, cmd: string)
    requires Has(tags, info.kind) && cmd == CommandText(ft, info, Names(OfKind(tags, info.kind)))
    requires TextsFit(KindCommand(ft, info, tags))
    ensures KindCommand(ft, info, tags) == [cmd] && |cmd| <= UINT32_MAX
  {
    assert |KindCommand(ft, info, tags)[0]| <= UINT32_MAX;
  }

  method AddCommand(calls: ArgArray, cmd: string, ghost cmds: seq<string>)
    requires HoldsCommands(calls, cmds) && |cmd| <= UINT32_MAX
    modifies calls, calls.fmt, calls.args
    ensures HoldsCommands(calls, cmds + [cmd])
    ensures calls.fmt == old(calls.fmt) || fresh(calls.fmt)
    ensures calls.args == old(calls.args) || fresh(calls.args)
  {
    calls.AddCmdCall(Ascii(cmd));
    CommandsMore(cmds, cmd);
  }

  lemma CommandsMore(cmds: seq<string>, cmd: string)
    requires TextsFit(cmds) && |cmd| <= UINT32_MAX
    ensures TextsFit(cmds + [cmd])
    ensures CommandFormats(|cmds| + 1) == CommandFormats(|cmds|) + [CMD_FORMAT]
    ensures CommandArguments(Ascii(COMMAND), Texts(cmds + [cmd]))
         == CommandArguments(Ascii(COMMAND), Texts(cmds)) + [CmdArguments(Ascii(cmd))]
  {
  }

  lemma {:induction false} FitsSoFar(ft: Filetype, infos: seq<Info>, tags: seq<Tag>, i: nat)
    requires i <= |infos| && TextsFit(KindCommands(ft, infos, tags))
    ensures TextsFit(KindCommands(ft, infos[..i], tags))
    decreases |infos|
  {
    if i == |infos| {
      assert infos[..i] == infos;
    } else {
      var n := |infos| - 1;
      var shorter := KindCommands(ft, infos[..n], tags);
      assert shorter <= KindCommands(ft, infos, tags);
      assert TextsFit(shorter);
      FitsSoFar(ft, infos[..n], tags, i);
      assert infos[..n][..i] == infos[..i];
    }
  }

  // ----- what reaches the editor

  /** Sent with nvim_call_atomic, the batch is decoded as these commands in this order. */
  lemma CommandsReachEditor(cmds: seq<string>, id: int32)
    requires |cmds| > 0 && TextsFit(cmds) && |AtomicText(CommandFormats(|cmds|))| < UINT32_MAX
    ensures
      var r := Compile(AtomicText(CommandFormats(|cmds|)), AtomicArgs(id, CommandArguments(Ascii(COMMAND), Texts(cmds))));
      r.Ok? && r.value.Some? && Decode(r.value.value)
        == Done(Arr([Unsigned(0), ReceivedInteger(id), Str(Ascii(CALL_ATOMIC)), Arr([Arr(CommandObjects(Ascii(COMMAND), Texts(cmds)))])]), [])
  {
    CommandBatchDecodes(Ascii(COMMAND), Texts(cmds), id);
  }

  // ----- no name is lost or shown twice

  /** The kind and name pairs that the commands list, command after command. */
  function ShownTags(infos: seq<Info>, tags: seq<Tag>): seq<Tag> {
    if |infos| == 0 then []
    else ShownTags(infos[..|infos| - 1], tags) + OfKind(tags, infos[|infos| - 1].kind)
  }

  function Kinds(infos: seq<Info>): set<char> { set i | 0 <= i < |infos| :: infos[i].kind }

  function OfKinds(tags: seq<Tag>, kinds: set<char>): seq<Tag> {
    if |tags| == 0 then []
    else OfKinds(tags[..|tags| - 1], kinds) + if tags[|tags| - 1].kind in kinds then [tags[|tags| - 1]] else []
  }

  lemma {:induction false} OneKindMore(tags: seq<Tag>, kinds: set<char>, kind: char)
    requires kind !in kinds
    ensures multiset(OfKinds(tags, kinds + {kind})) == multiset(OfKinds(tags, kinds)) + multiset(OfKind(tags, kind))
  {
    if |tags| > 0 {
      OneKindMore(tags[..|tags| - 1], kinds, kind);
    }
  }

  lemma {:induction false} AllKinds(tags: seq<Tag>, kinds: set<char>)
    requires forall k :: 0 <= k < |tags| ==> tags[k].kind in kinds
    ensures OfKinds(tags, kinds) == tags
  {
    if |tags| > 0 {
      AllKinds(tags[..|tags| - 1], kinds);
      assert tags == tags[..|tags| - 1] + [tags[|tags| - 1]];
    }
  }

  lemma {:induction false} NoKinds(tags: seq<Tag>)
    ensures OfKinds(tags, {}) == []
  {
    if |tags| > 0 {
      NoKinds(tags[..|tags| - 1]);
    }
  }

  predicate DistinctKinds(infos: seq<Info>) {
    forall i, j :: 0 <= i < j < |infos| ==> infos[i].kind != infos[j].kind
  }

  /** With no kind repeated in the order, each tag whose kind is in it is listed once, by the command of its kind. */
  lemma {:induction false} NamesAreConserved(infos: seq<Info>, tags: seq<Tag>)
    requires DistinctKinds(infos)
    ensures multiset(ShownTags(infos, tags)) == multiset(OfKinds(tags, Kinds(infos)))
    decreases |infos|
  {
    if |infos| == 0 {
      NoKinds(tags);
      assert Kinds(infos) == {};
    } else {
      var n := |infos| - 1;
      var before, last := infos[..n], infos[n].kind;
      NamesAreConserved(before, tags);
      KindsMore(infos);
      OneKindMore(tags, Kinds(before), last);
      assert ShownTags(infos, tags) == ShownTags(before, tags) + OfKind(tags, last);
    }
  }

  lemma KindsMore(infos: seq<Info>)
    requires |infos| > 0 && DistinctKinds(infos)
    ensures Kinds(infos) == Kinds(infos[..|infos| - 1]) + {infos[|infos| - 1].kind}
    ensures infos[|infos| - 1].kind !in Kinds(infos[..|infos| - 1])
  {
  }

  /** When the order has every kind that occurs, every tag is listed exactly once. */
  lemma EveryTagIsListedOnce(infos: seq<Info>, tags: seq<Tag>)
    requires DistinctKinds(infos) && forall k :: 0 <= k < |tags| ==> tags[k].kind in Kinds(infos)
    ensures multiset(ShownTags(infos, tags)) == multiset(tags)
  {
    NamesAreConserved(infos, tags);
    AllKinds(tags, Kinds(infos));
  }

  /** The list made for a buffer is listed whole, when the kinds of its filetype's order are asked for in that order. */
  lemma QueriedTagsAreListedOnce(q: Query, lines: seq<string>, tags: seq<Tag>, infos: seq<Info>)
    requires Answers(q, lines, tags) && DistinctKinds(infos)
    requires |infos| == |q.order| && forall i :: 0 <= i < |infos| ==> infos[i].kind == q.order[i]
    requires forall i :: 0 <= i < |q.equiv| ==> q.equiv[i].1 != '\0'
    ensures multiset(ShownTags(infos, tags)) == multiset(tags)
  {
    forall k | 0 <= k < |tags|
      ensures tags[k].kind in Kinds(infos)
    {
      assert tags[k] in tags && Wanted(q, lines, tags[k]);
      var line :| line in lines && Accepted(q, line) == Some(tags[k]);
      var kind := KindOf(Fields(line)[3..]);
      EquivalentIsKind(q.equiv, kind);
      var i :| 0 <= i < |q.order| && q.order[i] == tags[k].kind;
      assert infos[i].kind == tags[k].kind;
    }
    EveryTagIsListedOnce(infos, tags);
  }

  // ----- the commands tell what they list

  lemma {:induction false} OfKindMembers(tags: seq<Tag>, kind: char)
    ensures |OfKind(tags, kind)| > 0 <==> Has(tags, kind)
    ensures forall k :: 0 <= k < |OfKind(tags, kind)| ==> OfKind(tags, kind)[k].kind == kind
  {
    if |tags| > 0 {
      var n := |tags| - 1;
      OfKindMembers(tags[..n], kind);
      if Has(tags[..n], kind) {
        var k :| 0 <= k < n && tags[..n][k].kind == kind;
        assert tags[k].kind == kind;
      }
    }
  }

  lemma SameNamesSameTags(a: seq<Tag>, b: seq<Tag>, kind: char)
    requires Names(OfKind(a, kind)) == Names(OfKind(b, kind))
    ensures OfKind(a, kind) == OfKind(b, kind)
  {
    OfKindMembers(a, kind);
    OfKindMembers(b, kind);
    var x, y := OfKind(a, kind), OfKind(b, kind);
    assert |Names(x)| == |Names(y)|;
    forall k | 0 <= k < |x|
      ensures x[k] == y[k]
    {
      assert Names(x)[k] == Names(y)[k];
    }
  }

  /** What every command of a filetype begins with, up to the kind. */
  function BeforeKind(ft: Filetype): string { "silent! syntax clear " + ("_tag_highlight_" + ft.vimName + "_") }

  lemma KindIsInText(ft: Filetype, info: Info, names: seq<string>)
    ensures |CommandText(ft, info, names)| > |BeforeKind(ft)|
    ensures CommandText(ft, info, names)[|BeforeKind(ft)|] == info.kind
  {
    var before := BeforeKind(ft);
    GroupAhead("silent! syntax clear ", "_tag_highlight_" + ft.vimName + "_", [info.kind], "_", info.group, " | ");
    assert Heading(ft, info) == before + ([info.kind] + ("_" + info.group) + " | ");
    assert Heading(ft, info) <= Opening(ft, info) <= CommandText(ft, info, names);
  }

  lemma GroupAhead(a: string, b: string, c: string, d: string, e: string, f: string)
    ensures a + (b + c + d + e) + f == (a + b) + (c + (d + e) + f)
  {
  }

  /** Every command is some kind's. */
  lemma {:induction false} CommandOfKind(ft: Filetype, infos: seq<Info>, tags: seq<Tag>, k: nat) returns (j: nat, names: seq<string>)
    requires k < |KindCommands(ft, infos, tags)|
    ensures j < |infos| && KindCommands(ft, infos, tags)[k] == CommandText(ft, infos[j], names)
    decreases |infos|
  {
    var n := |infos| - 1;
    if k < |KindCommands(ft, infos[..n], tags)| {
      j, names := CommandOfKind(ft, infos[..n], tags, k);
    } else {
      j, names := n, Names(OfKind(tags, infos[n].kind));
    }
  }

  predicate AllReadable(infos: seq<Info>, tags: seq<Tag>) {
    forall i :: 0 <= i < |infos| ==> Readable(infos[i], Names(OfKind(tags, infos[i].kind)))
  }

  /** A kind that no tag has gives no command, so it cannot give the last one. */
  lemma LastCommandIsOfKind(ft: Filetype, infos: seq<Info>, info: Info, a: seq<Tag>, b: seq<Tag>)
    requires DistinctKinds(infos + [info]) && Has(a, info.kind) && !Has(b, info.kind)
    ensures KindCommands(ft, infos, a) + KindCommand(ft, info, a) != KindCommands(ft, infos, b) + KindCommand(ft, info, b)
  {
    var x, y, names := KindCommands(ft, infos, a), KindCommands(ft, infos, b), Names(OfKind(a, info.kind));
    LastIsShared(x, y, CommandText(ft, info, names));
    assert y + [] == y;
    if |y| > 0 {
      var j, others := CommandOfKind(ft, infos, b, |y| - 1);
      assert (infos + [info])[j].kind != (infos + [info])[|infos|].kind;
      KindsDiffer(ft, infos[j], info, others, names);
    }
  }

  lemma LastIsShared(x: seq<string>, y: seq<string>, last: string)
    ensures x + [last] == y ==> |y| > 0 && y[|y| - 1] == last
  {
    assert (x + [last])[|x|] == last;
  }

  lemma KindsDiffer(ft: Filetype, a: Info, b: Info, x: seq<string>, y: seq<string>)
    requires a.kind != b.kind
    ensures CommandText(ft, a, x) != CommandText(ft, b, y)
  {
    KindIsInText(ft, a, x);
    KindIsInText(ft, b, y);
  }

  /** With names free of the separators, equal commands list the same tags: nothing is shown that the texts do not tell. */
  lemma {:induction false} CommandsDetermineShown(ft: Filetype, infos: seq<Info>, a: seq<Tag>, b: seq<Tag>)
    requires DistinctKinds(infos) && AllReadable(infos, a) && AllReadable(infos, b)
    requires KindCommands(ft, infos, a) == KindCommands(ft, infos, b)
    ensures ShownTags(infos, a) == ShownTags(infos, b)
    decreases |infos|
  {
    if |infos| > 0 {
      var before, info := infos[..|infos| - 1], infos[|infos| - 1];
      assert infos == before + [info];
      if Has(a, info.kind) && !Has(b, info.kind) {
        LastCommandIsOfKind(ft, before, info, a, b);
      } else if !Has(a, info.kind) && Has(b, info.kind) {
        LastCommandIsOfKind(ft, before, info, b, a);
      } else {
        SameLast(ft, info, KindCommands(ft, before, a), KindCommands(ft, before, b), a, b);
        CommandsDetermineShown(ft, before, a, b);
      }
    }
  }

  lemma SameLast(ft: Filetype, info: Info, x: seq<string>, y: seq<string>, a: seq<Tag>, b: seq<Tag>)
    requires x + KindCommand(ft, info, a) == y + KindCommand(ft, info, b) && (Has(a, info.kind) <==> Has(b, info.kind))
    requires Readable(info, Names(OfKind(a, info.kind))) && Readable(info, Names(OfKind(b, info.kind)))
    ensures x == y && OfKind(a, info.kind) == OfKind(b, info.kind)
  {
    OfKindMembers(a, info.kind);
    OfKindMembers(b, info.kind);
    var c, d := KindCommand(ft, info, a), KindCommand(ft, info, b);
    assert |x| == |y| && x == (x + c)[..|x|] && y == (y + d)[..|y|];
    assert c == (x + c)[|x|..] && d == (y + d)[|y|..];
    if Has(a, info.kind) {
      assert c[0] == d[0];
      NamesCanBeReadBack(ft, info, Names(OfKind(a, info.kind)), Names(OfKind(b, info.kind)));
      SameNamesSameTags(a, b, info.kind);
    }
  }
}
