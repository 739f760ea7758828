/** The mirror of a buffer's lines, kept by splicing editor events into a doubly linked list. */
module LineMirror {
  import opened Wrappers
  import opened LinkedList

  /** Lines first..last of the editor's buffer were replaced by others. */
  datatype LineEvent = LineEvent(first: int, last: int, lines: seq<string>, more: bool)

  /** Both end the process. */
  datatype EventFault = ContinuationSet | InitialUpdate

  /** The range the editor promises: inside the buffer it describes. */
  predicate InRange(n: nat, ev: LineEvent) { 0 <= ev.first <= ev.last <= n }

  /** There is always at least one line, be it empty. */
  function Normalised(lines: seq<string>): seq<string> {
    if |lines| == 0 then [""] else lines
  }

  /** The editor's own buffer after the event. */
  function Edited(lines: seq<string>, ev: LineEvent): seq<string>
    requires InRange(|lines|, ev)
  {
    Normalised(Splice(lines, ev.first, ev.last, ev.lines))
  }

  /** Line by line: those above the range stay, the new ones follow, those below move up or down; a buffer left without lines has one empty line. */
  lemma EditedLineByLine(lines: seq<string>, ev: LineEvent)
    requires InRange(|lines|, ev)
    ensures var edited, added, removed := Edited(lines, ev), |ev.lines|, ev.last - ev.first;
            && (|lines| - removed + added == 0 ==> edited == [""])
            && (|lines| - removed + added > 0 ==>
                 && |edited| == |lines| - removed + added
                 && (forall k :: 0 <= k < ev.first ==> edited[k] == lines[k])
                 && (forall k :: 0 <= k < added ==> edited[ev.first + k] == ev.lines[k])
                 && (forall k :: ev.last <= k < |lines| ==> edited[k - removed + added] == lines[k]))
  {
  }

  /** One empty line at the top of a mirror of at most one line; taken to change nothing. */
  predicate Dropped(lines: seq<string>, ev: LineEvent) {
    |lines| <= 1 && ev.first == 0 && |ev.lines| == 1 && |ev.lines[0]| == 0
  }

  /** The mirror after the event. */
  function Mirrored(lines: seq<string>, ev: LineEvent): seq<string>
    requires InRange(|lines|, ev)
  {
    if Dropped(lines, ev) then Normalised(lines) else Edited(lines, ev)
  }

  /** A dropped event is harmless for an empty mirror, or when it replaces one empty line. */
  predicate Faithful(lines: seq<string>, ev: LineEvent) {
    Dropped(lines, ev) ==> |lines| == 0 || (ev.last == 1 && lines[0] == "")
  }

  /** The mirror follows the editor exactly when the event is not a harmful drop. */
  lemma MirrorIsEditedIffFaithful(lines: seq<string>, ev: LineEvent)
    requires InRange(|lines|, ev)
    ensures Mirrored(lines, ev) == Edited(lines, ev) <==> Faithful(lines, ev)
  {
    if Dropped(lines, ev) {
      assert ev.lines == [""];
      if |lines| == 1 && ev.last == 0 {
        assert |Edited(lines, ev)| == 2;
      } else if |lines| == 1 {
        assert Edited(lines, ev) == [""];
        assert lines == [""] <==> lines[0] == "";
      }
    }
  }

  /** A one-line buffer whose only line is cleared keeps its old text in the mirror. */
  lemma ClearedLineIsMissed()
    ensures Mirrored(["int x;"], LineEvent(0, 1, [""], false)) == ["int x;"]
    ensures Edited(["int x;"], LineEvent(0, 1, [""], false)) == [""]
  {
    assert Splice(["int x;"], 0, 1, [""]) == [""];
  }

  // ----- whole runs

  /** Every event lies inside the editor's buffer at the time it is sent. */
  predicate ValidRun(lines: seq<string>, evs: seq<LineEvent>)
    decreases |evs|
  {
    |evs| > 0 ==> InRange(|lines|, evs[0]) && ValidRun(Edited(lines, evs[0]), evs[1..])
  }

  /** Events applied by the editor one after another. */
  function EditorRun(lines: seq<string>, evs: seq<LineEvent>): seq<string>
    requires ValidRun(lines, evs)
    decreases |evs|
  {
    if |evs| == 0 then lines else EditorRun(Edited(lines, evs[0]), evs[1..])
  }

  /** The mirror's text after every event, as long as it agrees with the editor's. */
  predicate FollowsRun(lines: seq<string>, evs: seq<LineEvent>)
    requires ValidRun(lines, evs)
    decreases |evs|
  {
    |evs| > 0 ==>
      Mirrored(lines, evs[0]) == Edited(lines, evs[0]) && FollowsRun(Edited(lines, evs[0]), evs[1..])
  }

  /** No event of the run is a harmful drop. */
  predicate FaithfulRun(lines: seq<string>, evs: seq<LineEvent>)
    requires ValidRun(lines, evs)
    decreases |evs|
  {
    |evs| > 0 ==> Faithful(lines, evs[0]) && FaithfulRun(Edited(lines, evs[0]), evs[1..])
  }

  /** Over a whole run the mirror agrees with the editor after every event exactly when no event is a harmful drop. */
  lemma {:induction false} RunFollowedIffFaithful(lines: seq<string>, evs: seq<LineEvent>)
    requires ValidRun(lines, evs)
    ensures FollowsRun(lines, evs) <==> FaithfulRun(lines, evs)
    decreases |evs|
  {
    if |evs| > 0 {
      MirrorIsEditedIffFaithful(lines, evs[0]);
      RunFollowedIffFaithful(Edited(lines, evs[0]), evs[1..]);
    }
  }

  /** Every event lies inside the mirror at the time it is handled. */
  predicate MirrorRuns(lines: seq<string>, evs: seq<LineEvent>)
    decreases |evs|
  {
    |evs| > 0 ==> InRange(|lines|, evs[0]) && MirrorRuns(Mirrored(lines, evs[0]), evs[1..])
  }

  /** The mirror after one event after another. */
  function MirrorRun(lines: seq<string>, evs: seq<LineEvent>): seq<string>
    requires MirrorRuns(lines, evs)
    decreases |evs|
  {
    if |evs| == 0 then lines else MirrorRun(Mirrored(lines, evs[0]), evs[1..])
  }

  /** Without harmful drops the events the editor sends lie inside the mirror too, which ends with the editor's text. */
  lemma {:induction false} FaithfulRunIsMirrored(lines: seq<string>, evs: seq<LineEvent>)
    requires ValidRun(lines, evs) && FaithfulRun(lines, evs)
    ensures MirrorRuns(lines, evs) && MirrorRun(lines, evs) == EditorRun(lines, evs)
    decreases |evs|
  {
    if |evs| > 0 {
      MirrorIsEditedIffFaithful(lines, evs[0]);
      FaithfulRunIsMirrored(Edited(lines, evs[0]), evs[1..]);
    }
  }

  // ----- the handler

  class Buffer {
    const lines: LinkedList<string>
    var initialized: bool

    constructor ()
      ensures lines.Valid() && lines.Items == [] && !initialized && fresh(lines)
    {
      lines := new LinkedList();
      initialized := false;
    }

    /** The lines first read from the editor. A single placeholder line gives way; longer contents are split after their first line. */
    method GetInitialLines(tmp: seq<string>) returns (fault: Option<SliceFault>)
      requires lines.Valid()
      modifies this, lines, lines.Spine
      ensures fault == if |tmp| == 0 then Some(AssertionFailed) else None
      ensures fault.None? ==> lines.Valid() && initialized
      ensures fault.None? ==>
                lines.Items == if |old(lines.Items)| <= 1 then tmp else Splice(old(lines.Items), 1, 1, tmp)
    {
      ClearPlaceholder();
      fault := FillBehindFirst(tmp);
      if fault.None? {
        initialized := true;
      }
    }

    /** A single line is taken out. */
    method ClearPlaceholder()
      requires lines.Valid()
      modifies lines, lines.Spine
      ensures lines.Valid() && lines.Items == if |old(lines.Items)| == 1 then [] else old(lines.Items)
      ensures lines.Spine == [] || lines.Spine == old(lines.Spine)
    {
      if lines.qty == 1 {
        lines.DeleteNode(lines.head, 0);
      }
    }

    method FillBehindFirst(tmp: seq<string>) returns (fault: Option<SliceFault>)
      requires lines.Valid()
      modifies lines, lines.Spine
      ensures fault == if |tmp| == 0 then Some(AssertionFailed) else None
      ensures lines.Valid()
      ensures fault.None? ==>
                lines.Items == if |old(lines.Items)| == 0 then tmp else Splice(old(lines.Items), 1, 1, tmp)
    {
      fault := lines.InsertBlistAfter(lines.head, tmp, 0, -1, 0);
      assert tmp[0..|tmp|] == tmp;
    }

    /** One line overwritten in place. */
    method ReplaceLine(text: string, lineno: nat)
      requires lines.Valid() && lineno < |lines.Items|
      modifies lines, lines.Spine
      ensures lines.Valid() && lines.Spine == old(lines.Spine)
      ensures lines.Items == Splice(old(lines.Items), lineno, lineno + 1, [text])
    {
      var node := lines.At(lineno);
      lines.Replace(node, text, lineno);
    }

    /** Lines that do not exist yet: after the last one when the position is past it, else before the one there. */
    method InsertNew(new_strings: seq<string>, index: nat, start: nat)
      requires lines.Valid() && 0 < |lines.Items| && index <= |lines.Items| && start < |new_strings|
      modifies lines, lines.Spine
      ensures lines.Valid() && lines.Items == Splice(old(lines.Items), index, index, new_strings[start..])
      ensures forall n :: n in lines.Spine ==> n in old(lines.Spine) || fresh(n)
    {
      assert new_strings[start..|new_strings|] == new_strings[start..];
      var node := lines.At(index);
      var fault;
      if index >= lines.qty {
        fault := lines.InsertBlistAfter(node, new_strings, start, -1, index - 1);
      } else {
        fault := lines.InsertBlistBefore(node, new_strings, start, -1, index);
      }
      assert fault == None;
    }

    /**
     The common case: existing lines are overwritten while there are both old and new ones, then the
     surplus old lines are deleted or the surplus new ones inserted.
     */
    method LineEventMultiOp(new_strings: seq<string>, first: nat, num_to_modify: nat)
      requires lines.Valid() && 0 < |lines.Items| && first + num_to_modify <= |lines.Items| && |new_strings| > 0
      modifies lines, lines.Spine
      ensures lines.Valid()
      ensures lines.Items == Splice(old(lines.Items), first, first + num_to_modify, new_strings)
      ensures forall n :: n in lines.Spine ==> n in old(lines.Spine) || fresh(n)
    {
      var num_lines := if num_to_modify > |new_strings| then num_to_modify else |new_strings|;
      var olen := lines.qty;
      var remaining: int := num_to_modify;
      ghost var old_lines, spine := lines.Items, lines.Spine;
      assert Splice(old_lines, first, first, new_strings[..0]) == old_lines;
      for i := 0 to num_lines
        invariant i <= |new_strings| && i <= num_to_modify && remaining == num_to_modify - i
        invariant lines.Valid() && lines.Spine == spine
        invariant lines.Items == Splice(old_lines, first, first + i, new_strings[..i])
      {
        remaining := remaining - 1;
        var done := MultiOpStep(new_strings, first, i, remaining, olen, old_lines, num_to_modify);
        if done {
          return;
        }
      }
      assert new_strings[..|new_strings|] == new_strings;
    }

    /** One turn of the loop; true ends it. */
    method MultiOpStep(new_strings: seq<string>, first: nat, i: nat, remaining: int, olen: nat,
                       ghost old_lines: seq<string>, ghost count: nat)
      returns (done: bool)
      requires lines.Valid() && 0 < |lines.Items| == |old_lines| && olen == |old_lines| && first + count <= olen
      requires i <= |new_strings| && i <= count && (i < count || i < |new_strings|) && remaining == count - i - 1
      requires lines.Items == Splice(old_lines, first, first + i, new_strings[..i])
      modifies lines, lines.Spine
      ensures lines.Valid()
      ensures forall n :: n in lines.Spine ==> n in old(lines.Spine) || fresh(n)
      ensures done ==> lines.Items == Splice(old_lines, first, first + count, new_strings)
      ensures !done ==> lines.Spine == old(lines.Spine) && i < |new_strings| && i < count
                        && lines.Items == Splice(old_lines, first, first + i + 1, new_strings[..i + 1])
    {
      var index := first + i;
      if remaining + 1 > 0 && i < olen {
        if i < |new_strings| {
          ReplaceLine(new_strings[i], index);
          OneMoreReplaced(old_lines, first, i, new_strings);
          done := false;
        } else {
          DeleteLines(index, remaining + 1);
          SurplusDeleted(old_lines, first, count, new_strings);
          done := true;
        }
      } else {
        InsertNew(new_strings, index, i);
        SurplusInserted(old_lines, first, count, new_strings);
        done := true;
      }
    }

    /** A whole event. The result says whether it was dropped as useless. */
    method HandleLineEvent(ev: LineEvent) returns (r: Result<bool, EventFault>)
      requires lines.Valid()
      requires !ev.more && !(|ev.lines| > 0 && ev.last == -1) ==> InRange(|lines.Items|, ev)
      modifies this, lines, lines.Spine
      ensures ev.more ==> r == Err(ContinuationSet)
      ensures !ev.more && |ev.lines| > 0 && ev.last == -1 ==> r == Err(InitialUpdate)
      ensures r.Err? ==> ev.more || (|ev.lines| > 0 && ev.last == -1)
      ensures r.Ok? ==> lines.Valid() && lines.Items == Mirrored(old(lines.Items), ev)
      ensures r.Ok? ==> r.value == Dropped(old(lines.Items), ev) && initialized == (old(initialized) || !r.value)
      ensures forall n :: n in lines.Spine ==> n in old(lines.Spine) || fresh(n)
    {
      if ev.more {
        return Err(ContinuationSet);
      }
      if |ev.lines| > 0 && ev.last == -1 {
        return Err(InitialUpdate);
      }
      var empty := UpdateLines(ev);
      if lines.qty == 0 {
        lines.Append("");
        assert [] + [""] == [""];
      }
      if !initialized && !empty {
        initialized := true;
      }
      r := Ok(empty);
    }

    /**
     Update after update. The list goes through exactly the mirrored texts, and ends with the editor's
     own text if no event is a harmful drop. An event with the continuation flag ends the process.
     */
    method HandleRun(evs: seq<LineEvent>) returns (r: Result<(), EventFault>)
      requires lines.Valid() && MirrorRuns(lines.Items, evs)
      modifies this, lines, lines.Spine
      ensures r.Ok? <==> forall k :: 0 <= k < |evs| ==> !evs[k].more
      ensures r.Err? ==> r.error == ContinuationSet
      ensures r.Ok? ==> lines.Valid() && lines.Items == MirrorRun(old(lines.Items), evs)
      ensures r.Ok? && ValidRun(old(lines.Items), evs) && FaithfulRun(old(lines.Items), evs) ==>
                lines.Items == EditorRun(old(lines.Items), evs)
    {
      ghost var start := lines.Items;
      assert evs[0..] == evs;
      for k := 0 to |evs|
        invariant lines.Valid() && forall n :: n in lines.Spine ==> n in old(lines.Spine) || fresh(n)
        invariant forall j :: 0 <= j < k ==> !evs[j].more
        invariant MirrorRuns(lines.Items, evs[k..])
        invariant MirrorRun(lines.Items, evs[k..]) == MirrorRun(start, evs)
      {
        assert evs[k..][0] == evs[k] && evs[k..][1..] == evs[k + 1..];
        assert forall i :: 0 <= i < |lines.Spine| ==> lines.Spine[i] in old(lines.Spine) || fresh(lines.Spine[i]);
        var handled := HandleLineEvent(evs[k]);
        if handled.Err? {
          return Err(handled.error);
        }
      }
      if ValidRun(start, evs) && FaithfulRun(start, evs) {
        FaithfulRunIsMirrored(start, evs);
      }
      r := Ok(());
    }

    /** Lines inserted above the first one. */
    method InsertAtTop(text: seq<string>)
      requires lines.Valid() && |text| > 0
      modifies lines, lines.Spine
      ensures lines.Valid() && lines.Items == Splice(old(lines.Items), 0, 0, text)
      ensures forall n :: n in lines.Spine ==> n in old(lines.Spine) || fresh(n)
    {
      var node := lines.At(0);
      var fault := lines.InsertBlistBefore(node, text, 0, -1, 0);
      assert fault == None && text[0..|text|] == text;
    }

    /** Lines deleted without replacement. */
    method DeleteLines(first: nat, count: nat)
      requires lines.Valid() && 0 < count && first + count <= |lines.Items|
      modifies lines, lines.Spine
      ensures lines.Valid() && lines.Items == Splice(old(lines.Items), first, first + count, [])
      ensures forall n :: n in lines.Spine ==> n in old(lines.Spine) || fresh(n)
    {
      var node := lines.At(first);
      lines.DeleteRange(node, count, first);
    }

    /** The event's effect on the list, before an emptied buffer gets its one line back. */
    method UpdateLines(ev: LineEvent) returns (empty: bool)
      requires lines.Valid() && InRange(|lines.Items|, ev)
      modifies lines, lines.Spine
      ensures lines.Valid() && empty == Dropped(old(lines.Items), ev)
      ensures lines.Items == if empty then old(lines.Items) else Splice(old(lines.Items), ev.first, ev.last, ev.lines)
      ensures forall n :: n in lines.Spine ==> n in old(lines.Spine) || fresh(n)
    {
      var diff := ev.last - ev.first;
      empty := false;
      if |ev.lines| > 0 {
        if lines.qty <= 1 && ev.first == 0 && |ev.lines| == 1 && |ev.lines[0]| == 0 {
          empty := true;
        } else if ev.first == 0 && ev.last == 0 {
          InsertAtTop(ev.lines);
        } else {
          LineEventMultiOp(ev.lines, ev.first, diff);
        }
      } else if ev.first != ev.last {
        DeleteLines(ev.first, diff);
      } else {
        assert Splice(lines.Items, ev.first, ev.last, ev.lines) == lines.Items;
      }
    }
  }

  lemma OneMoreReplaced(lines: seq<string>, first: nat, i: nat, text: seq<string>)
    requires first + i < |lines| && i < |text|
    ensures Splice(Splice(lines, first, first + i, text[..i]), first + i, first + i + 1, [text[i]])
         == Splice(lines, first, first + i + 1, text[..i + 1])
  {
  }

  lemma SurplusDeleted(lines: seq<string>, first: nat, count: nat, text: seq<string>)
    requires first + count <= |lines| && |text| <= count
    ensures Splice(Splice(lines, first, first + |text|, text), first + |text|, first + count, [])
         == Splice(lines, first, first + count, text)
    ensures text[..|text|] == text
  {
  }

  lemma SurplusInserted(lines: seq<string>, first: nat, count: nat, text: seq<string>)
    requires first + count <= |lines| && count <= |text|
    ensures Splice(Splice(lines, first, first + count, text[..count]), first + count, first + count, text[count..])
         == Splice(lines, first, first + count, text)
  {
  }
}
