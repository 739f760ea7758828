/** The arrays a batch of calls is collected in, and nvim_call_atomic over them. */
module Batch {
  import opened Bits
  import opened Wrappers
  import opened Mpack
  import opened Reading
  import opened Codec
  import opened Format
  import opened FormatMeaning
  import opened Compiler
  import opened Requests

  // ----- how deep and how wide concatenated formats get

  function Max(a: int, b: int): int { if a >= b then a else b }

  /** The deepest nesting reached anywhere in a string. */
  function Peak(s: string): int {
    if |s| == 0 then 0 else Max(Peak(s[..|s| - 1]), Nesting(s))
  }

  lemma {:induction false} ShapeOfConcat(a: string, b: string)
    ensures Openings(a + b) == Openings(a) + Openings(b)
    ensures Nesting(a + b) == Nesting(a) + Nesting(b)
    ensures Peak(a + b) == Max(Peak(a), Nesting(a) + Peak(b))
    decreases |b|
  {
    if |b| == 0 {
      assert a + b == a;
      PeakBounds(a, |a|);
      assert a[..|a|] == a;
    } else {
      var n := |b| - 1;
      assert (a + b)[..|a + b| - 1] == a + b[..n];
      ShapeOfConcat(a, b[..n]);
    }
  }

  lemma {:induction false} PeakBounds(s: string, i: nat)
    requires i <= |s|
    ensures Nesting(s[..i]) <= Peak(s)
    decreases |s|
  {
    if i == |s| {
      assert s[..i] == s;
    } else {
      assert s[..|s| - 1][..i] == s[..i];
      PeakBounds(s[..|s| - 1], i);
    }
  }

  lemma {:induction false} ShapeOfPlain(s: string)
    requires forall i :: 0 <= i < |s| ==> !IsOpen(s[i]) && !IsClose(s[i])
    ensures Openings(s) == Nesting(s) == Peak(s) == 0
  {
    if |s| > 0 {
      ShapeOfPlain(s[..|s| - 1]);
    }
  }

  lemma ShapeOfOne(c: char)
    ensures Openings([c]) == (if IsOpen(c) then 1 else 0)
    ensures Nesting([c]) == if IsOpen(c) then 1 else if IsClose(c) then -1 else 0
    ensures Peak([c]) == if IsOpen(c) then 1 else 0
  {
    assert [c][..0] == "";
  }

  /** A balanced call format with few brackets; every format the program adds has one. */
  predicate ModestFormat(fmt: string) {
    Openings(fmt) <= 5 && Nesting(fmt) == 0 && Peak(fmt) <= 100
  }

  lemma ShapeOfOpeners()
    ensures Openings("[*") == 1 && Nesting("[*") == 1 && Peak("[*") == 1
    ensures Openings("[ @[") == 2 && Nesting("[ @[") == 2 && Peak("[ @[") == 2
  {
    ShapeOfOne('[');
    ShapeOfPlain("*");
    ShapeOfPlain(" @");
    ShapeOfConcat("[", "*");
    ShapeOfConcat("[", " @");
    ShapeOfConcat("[ @", "[");
    assert "[" + "*" == "[*" && "[" + " @" == "[ @" && "[ @" + "[" == "[ @[";
  }

  lemma ShapeOfCloser()
    ensures Openings("],") == 0 && Nesting("],") == -1 && Peak("],") == 0
  {
    ShapeOfOne(']');
    ShapeOfPlain(",");
    ShapeOfConcat("]", ",");
    assert "]" + "," == "],";
  }

  /** A call's text between its brackets, with what stands around it. */
  lemma ShapeOfCall(before: string, fmt: string)
    requires ModestFormat(fmt)
    requires 0 <= Openings(before) == Nesting(before) == Peak(before) <= 2
    ensures var s := before + fmt + "],";
            Openings(s) == Openings(fmt) + Openings(before) && Nesting(s) == Nesting(before) - 1 && Peak(s) <= 102
  {
    ShapeOfCloser();
    ShapeOfConcat(before, fmt);
    ShapeOfConcat(before + fmt, "],");
  }

  lemma {:induction false} ShapeOfCalls(fmts: seq<string>)
    requires |fmts| > 0 && forall k :: 0 <= k < |fmts| ==> ModestFormat(fmts[k])
    ensures Openings(CallText(fmts)) <= 1 + 6 * |fmts| && Nesting(CallText(fmts)) == 1 && Peak(CallText(fmts)) <= 103
    decreases |fmts|
  {
    var n := |fmts| - 1;
    ShapeOfOpeners();
    if n == 0 {
      ShapeOfCall("[ @[", fmts[0]);
    } else {
      ShapeOfCalls(fmts[..n]);
      ShapeOfCall("[*", fmts[n]);
      ShapeOfConcat(CallText(fmts[..n]), "[*" + fmts[n] + "],");
      assert CallText(fmts[..n]) + ("[*" + fmts[n] + "],") == CallText(fmts);
    }
  }

  lemma ShapeOfHead()
    ensures Openings("[d,d,s:") == 1 && Nesting("[d,d,s:") == 1 && Peak("[d,d,s:") == 1
  {
    ShapeOfOne('[');
    ShapeOfPlain("d,d,s:");
    ShapeOfConcat("[", "d,d,s:");
    assert "[" + "d,d,s:" == "[d,d,s:";
  }

  lemma ShapeOfParameters()
    ensures Openings("[:") == 1 && Nesting("[:") == 1 && Peak("[:") == 1
  {
    ShapeOfOne('[');
    ShapeOfPlain(":");
    ShapeOfConcat("[", ":");
    assert "[" + ":" == "[:";
  }

  lemma ShapeOfBase()
    ensures Openings("[d,d,s:[:") == 2 && Nesting("[d,d,s:[:") == 2 && Peak("[d,d,s:[:") == 2
  {
    ShapeOfHead();
    ShapeOfParameters();
    ShapeOfConcat("[d,d,s:", "[:");
    assert "[d,d,s:" + "[:" == "[d,d,s:[:";
  }

  lemma ShapeOfClosing(s: string)
    requires |s| <= 3 && forall i :: 0 <= i < |s| ==> !IsOpen(s[i])
    ensures Openings(s) == 0 && Nesting(s) <= 0 && Peak(s) == 0
  {
    if |s| > 0 {
      ShapeOfClosing(s[..|s| - 1]);
    }
  }

  /** Whatever the number of calls, the batch's format stays inside the compiler's arrays. */
  lemma AtomicFits(fmts: seq<string>)
    requires forall k :: 0 <= k < |fmts| ==> ModestFormat(fmts[k])
    ensures FitsArrays(|fmts|, AtomicText(fmts))
  {
    var s := AtomicText(fmts);
    ShapeOfBase();
    ShapeOfClosing(":]]");
    var middle := if |fmts| > 0 then CallText(fmts) + " ]" else "";
    if |fmts| > 0 {
      ShapeOfCalls(fmts);
      ShapeOfClosing(" ]");
      ShapeOfConcat(CallText(fmts), " ]");
    }
    ShapeOfConcat("[d,d,s:[:", middle);
    ShapeOfConcat("[d,d,s:[:" + middle, ":]]");
    forall i | 0 <= i <= |s| ensures Nesting(s[..i]) < STACK_SIZE {
      PeakBounds(s, i);
    }
  }

  // ----- the arrays of calls

  /** Parallel arrays of formats and argument arrays, of which the first qty slots are filled. */
  class ArgArray {
    var fmt: array<string>
    var args: array<seq<UArg>>
    var qty: nat
    var mlen: nat

    ghost predicate Valid()
      reads this
    {
      qty < mlen == fmt.Length == args.Length
    }

    ghost function Formats(): (s: seq<string>)
      reads this, fmt
      requires Valid()
      ensures |s| == qty
    {
      fmt[..qty]
    }

    ghost function Arguments(): (s: seq<seq<UArg>>)
      reads this, args
      requires Valid()
      ensures |s| == qty
    {
      args[..qty]
    }

    /** Room for 128 calls from the highlighters, 16 from the command builder. */
    constructor (mlen: nat)
      requires mlen >= 2
      ensures Valid() && this.mlen == mlen && Formats() == [] && Arguments() == [] && fresh(fmt) && fresh(args)
    {
      this.mlen := mlen;
      fmt := new string[mlen](_ => "");
      args := new seq<UArg>[mlen](_ => []);
      qty := 0;
    }

    /** Doubles both arrays once only one slot is left, keeping what they hold. */
    method Reserve()
      requires Valid() && mlen >= 2
      modifies this
      ensures Valid() && mlen >= 2 && qty + 1 < mlen
      ensures Formats() == old(Formats()) && Arguments() == old(Arguments())
      ensures fmt == old(fmt) || fresh(fmt)
      ensures args == old(args) || fresh(args)
    {
      if qty >= mlen - 1 {
        mlen := mlen * 2;
        var f, a := fmt, args;
        fmt := new string[mlen](i requires 0 <= i reads f => if i < f.Length then f[i] else "");
        args := new seq<UArg>[mlen](i requires 0 <= i reads a => if i < a.Length then a[i] else []);
      }
    }

    method Add(text: string, arg: seq<UArg>)
      requires Valid() && mlen >= 2
      modifies this, fmt, args
      ensures Valid() && mlen >= 2
      ensures Formats() == old(Formats()) + [text] && Arguments() == old(Arguments()) + [arg]
      ensures fmt == old(fmt) || fresh(fmt)
      ensures args == old(args) || fresh(args)
    {
      Reserve();
      fmt[qty], args[qty] := text, arg;
      qty := qty + 1;
    }

    method AddHlCall(bufnum: int32, hlId: int32, group: Bytes, line: nat, start: nat, end: nat)
      requires Valid() && mlen >= 2 && line <= UINT32_MAX && start <= UINT32_MAX && end <= UINT32_MAX
      modifies this, fmt, args
      ensures Valid() && mlen >= 2
      ensures Formats() == old(Formats()) + [HL_FORMAT]
      ensures Arguments() == old(Arguments()) + [HlArguments(bufnum, hlId, group, line, start, end)]
      ensures fmt == old(fmt) || fresh(fmt)
      ensures args == old(args) || fresh(args)
    {
      Add(HL_FORMAT, HlArguments(bufnum, hlId, group, line, start, end));
    }

    method AddClrCall(bufnum: int32, hlId: int32, line: int32, end: int32)
      requires Valid() && mlen >= 2
      modifies this, fmt, args
      ensures Valid() && mlen >= 2
      ensures Formats() == old(Formats()) + [CLR_FORMAT]
      ensures Arguments() == old(Arguments()) + [ClrArguments(bufnum, hlId, line, end)]
      ensures fmt == old(fmt) || fresh(fmt)
      ensures args == old(args) || fresh(args)
    {
      Add(CLR_FORMAT, ClrArguments(bufnum, hlId, line, end));
    }

    method AddCmdCall(cmd: Bytes)
      requires Valid() && mlen >= 2
      modifies this, fmt, args
      ensures Valid() && mlen >= 2
      ensures Formats() == old(Formats()) + [CMD_FORMAT] && Arguments() == old(Arguments()) + [CmdArguments(cmd)]
      ensures fmt == old(fmt) || fresh(fmt)
      ensures args == old(args) || fresh(args)
    {
      Add(CMD_FORMAT, CmdArguments(cmd));
    }
  }

  const HL_FORMAT := "s[dd,s,ddd]"
  const CLR_FORMAT := "s[dddd]"
  const CMD_FORMAT := "s[s]"

  function HlArguments(bufnum: int32, hlId: int32, group: Bytes, line: nat, start: nat, end: nat): seq<UArg>
    requires line <= UINT32_MAX && start <= UINT32_MAX && end <= UINT32_MAX
  {
    [UStr(Some(Ascii("nvim_buf_add_highlight"))), UNum(bufnum), UNum(hlId), UStr(Some(group)), UNum(line), UNum(start), UNum(end)]
  }

  function ClrArguments(bufnum: int32, hlId: int32, line: int32, end: int32): seq<UArg> {
    [UStr(Some(Ascii("nvim_buf_clear_highlight"))), UNum(bufnum), UNum(hlId), UNum(line), UNum(end)]
  }

  function CmdArguments(cmd: Bytes): seq<UArg> {
    [UStr(Some(Ascii("nvim_command"))), UStr(Some(cmd))]
  }

  /**
   nvim_call_atomic up to the packed bytes: the format grows call by call and is compiled with the
   argument arrays behind one "@".
   */
  method NvimCallAtomic(calls: ArgArray, id: int32) returns (pack: Result<Option<seq<byte>>, Failure>)
    requires calls.Valid() && ArraySize(calls.qty) <= UINT32_MAX
    requires forall k :: 0 <= k < calls.qty ==> ModestFormat(calls.Formats()[k])
    requires |AtomicText(calls.Formats())| <= UINT32_MAX
    ensures pack == Compile(AtomicText(calls.Formats()), AtomicArgs(id, calls.Arguments()))
  {
    ghost var fmts := calls.Formats();
    var fmt := "[d,d,s:[:";
    if calls.qty > 0 {
      var text := "[ @[" + calls.fmt[0] + "],";
      assert fmts[..1][0] == fmts[0];
      for i := 1 to calls.qty
        invariant text == CallText(fmts[..i])
      {
        assert fmts[..i + 1][..i] == fmts[..i];
        text := text + "[*" + calls.fmt[i] + "],";
      }
      assert fmts[..calls.qty] == fmts;
      fmt := fmt + (text + " ]");
    } else {
      assert fmt + "" == fmt;
    }
    fmt := fmt + ":]]";
    assert fmt == AtomicText(fmts);
    AtomicFits(fmts);
    pack := MpackEncodeFmt(calls.qty, fmt, AtomicArgs(id, calls.args[..calls.qty]));
  }

  // ----- what the three added formats mean

  lemma ModestCalls()
    ensures ModestFormat(HL_FORMAT) && ModestFormat(CLR_FORMAT) && ModestFormat(CMD_FORMAT)
  {
    ShapeOfBracketed("dd,s,ddd");
    ShapeOfBracketed("dddd");
    ShapeOfBracketed("s");
    assert "s[" + "dd,s,ddd" + "]" == HL_FORMAT && "s[" + "dddd" + "]" == CLR_FORMAT && "s[" + "s" + "]" == CMD_FORMAT;
  }

  lemma ShapeOfBracketed(inner: string)
    requires forall i :: 0 <= i < |inner| ==> !IsOpen(inner[i]) && !IsClose(inner[i])
    ensures ModestFormat("s[" + inner + "]")
  {
    ShapeOfPlain("s");
    ShapeOfPlain(inner);
    ShapeOfOne('[');
    ShapeOfOne(']');
    ShapeOfConcat("s", "[");
    assert "s" + "[" == "s[";
    ShapeOfConcat("s[", inner);
    ShapeOfConcat("s[" + inner, "]");
  }

  /** A method name and one bracket of flat parameters. */
  function CallTree(params: seq<Item>): seq<Item> {
    [Leaf('s'), Group('[', params, ']')]
  }

  lemma CallTreeShown(params: seq<Item>)
    ensures Show(CallTree(params)) == "s[" + Show(params) + "]"
    ensures WellFormed(params) ==> WellFormed(CallTree(params))
    ensures SwitchFree(params) ==> SwitchFree(CallTree(params))
  {
    var group := Group('[', params, ']');
    ShowOne(Leaf('s'));
    ShowOne(group);
    ShowConcat([Leaf('s')], [group]);
    assert [Leaf('s')] + [group] == CallTree(params);
    assert CallTree(params)[1..] == [group] && [group][1..] == [];
  }

  /** The items of a string without brackets. */
  function FlatItems(s: string): (items: seq<Item>)
    ensures |items| == |s|
  {
    if |s| == 0 then [] else [if IsLeaf(s[0]) then Leaf(s[0]) else Mark(s[0])] + FlatItems(s[1..])
  }

  predicate FlatFormat(s: string) {
    forall i :: 0 <= i < |s| ==> IsLeaf(s[i]) || s[i] == ','
  }

  lemma {:induction false} FlatShown(s: string)
    requires FlatFormat(s)
    ensures Show(FlatItems(s)) == s && WellFormed(FlatItems(s)) && SwitchFree(FlatItems(s))
  {
    if |s| > 0 {
      FlatShown(s[1..]);
      assert FlatItems(s)[1..] == FlatItems(s[1..]);
      assert [s[0]] + s[1..] == s;
    }
  }

  /** Values a bracket-free format reads from consecutive slots. */
  function SlotValues(s: string, slots: seq<UArg>): Option<seq<Obj>> {
    if |s| == 0 then Some([])
    else if !IsLeaf(s[0]) then SlotValues(s[1..], slots)
    else if Lower(s[0]) == 'n' || |slots| == 0 then None
    else
      match FromUnion(s[0], slots[0])
      case None => None
      case Some(o) =>
        match SlotValues(s[1..], slots[1..])
        case None => None
        case Some(others) => Some([o] + others)
  }

  lemma SlotStep(c: char, rest: string, slot: UArg, slots: seq<UArg>, o: Obj, others: seq<Obj>)
    requires IsLeaf(c) && Lower(c) != 'n' && FromUnion(c, slot) == Some(o) && SlotValues(rest, slots) == Some(others)
    ensures SlotValues([c] + rest, [slot] + slots) == Some([o] + others)
  {
    assert ([c] + rest)[1..] == rest && ([slot] + slots)[1..] == slots;
  }

  lemma {:induction false} FlatDenoted(s: string, slots: seq<UArg>, j: nat)
    requires FlatFormat(s) && j <= |slots| && SlotValues(s, slots[j..]).Some?
    ensures var r := Denote(FlatItems(s), Arrays([slots], 0, j));
            r.Ok? && r.value.objs == SlotValues(s, slots[j..]).value
    decreases |s|
  {
    var src := Arrays([slots], 0, j);
    if |s| > 0 {
      assert FlatItems(s)[1..] == FlatItems(s[1..]);
      if IsLeaf(s[0]) {
        assert slots[j..][1..] == slots[j + 1..];
        FlatDenoted(s[1..], slots, j + 1);
        assert DenoteItem(Leaf(s[0]), src) == Ok(Meaning([FromUnion(s[0], slots[j]).value], Arrays([slots], 0, j + 1)));
      } else {
        FlatDenoted(s[1..], slots, j);
        assert [] + SlotValues(s, slots[j..]).value == SlotValues(s, slots[j..]).value;
      }
    }
  }

  /** A call of a named method with a flat list of parameters. */
  lemma CallDenoted(params: string, name: Bytes, slots: seq<UArg>)
    requires FlatFormat(params) && |slots| > 0 && slots[0] == UStr(Some(name))
    requires SlotValues(params, slots[1..]).Some?
    ensures var r := Denote(CallTree(FlatItems(params)), Arrays([slots], 0, 0));
            r.Ok? && r.value.objs == [Str(name), Arr(SlotValues(params, slots[1..]).value)]
  {
    var src := Arrays([slots], 0, 0);
    var group := Group('[', FlatItems(params), ']');
    assert CallTree(FlatItems(params)) == [Leaf('s')] + [group];
    DenoteConcat([Leaf('s')], [group], src);
    DenoteOne(Leaf('s'), src);
    DenoteOne(group, Arrays([slots], 0, 1));
    FlatDenoted(params, slots, 1);
  }

  lemma CmdTreeShown()
    ensures Show(CallTree(FlatItems("s"))) == CMD_FORMAT
    ensures WellFormed(CallTree(FlatItems("s"))) && SwitchFree(CallTree(FlatItems("s")))
  {
    FlatCallShown("s");
  }

  /** A command call is the method name with the one command string. */
  lemma CmdCallDenoted(name: Bytes, cmd: Bytes)
    ensures
      var r := Denote(CallTree(FlatItems("s")), Arrays([[UStr(Some(name)), UStr(Some(cmd))]], 0, 0));
      r.Ok? && r.value.objs == [Str(name), Arr([Str(cmd)])]
  {
    var slots := [UStr(Some(name)), UStr(Some(cmd))];
    SlotStep('s', "", UStr(Some(cmd)), [], Str(cmd), []);
    assert ['s'] + "" == "s" && slots[1..] == [UStr(Some(cmd))] + [];
    assert [Str(cmd)] + [] == [Str(cmd)];
    CallDenoted("s", name, slots);
  }

  lemma SlotSkip(c: char, rest: string, slots: seq<UArg>)
    requires !IsLeaf(c)
    ensures SlotValues([c] + rest, slots) == SlotValues(rest, slots)
  {
    assert ([c] + rest)[1..] == rest;
  }

  lemma NumberSlot(rest: string, n: int64, slots: seq<UArg>, others: seq<Obj>)
    requires SlotValues(rest, slots) == Some(others)
    ensures SlotValues("d" + rest, [UNum(n)] + slots) == Some([Signed(ToInt32(n))] + others)
  {
    assert "d" == ['d'];
    SlotStep('d', rest, UNum(n), slots, Signed(ToInt32(n)), others);
  }

  lemma TwoNumbers(rest: string, a: int64, b: int64, slots: seq<UArg>, others: seq<Obj>)
    requires SlotValues(rest, slots) == Some(others)
    ensures SlotValues("dd" + rest, [UNum(a), UNum(b)] + slots) == Some(Numbers(a, b) + others)
  {
    NumberSlot(rest, b, slots, others);
    NumberSlot("d" + rest, a, [UNum(b)] + slots, [Signed(ToInt32(b))] + others);
    assert "d" + ("d" + rest) == "dd" + rest;
    assert [UNum(a)] + ([UNum(b)] + slots) == [UNum(a), UNum(b)] + slots;
    assert [Signed(ToInt32(a))] + ([Signed(ToInt32(b))] + others) == Numbers(a, b) + others;
  }

  function Numbers(a: int64, b: int64): seq<Obj> { [Signed(ToInt32(a)), Signed(ToInt32(b))] }

  /** A clear call is the method name with its four numbers. */
  lemma ClrCallDenoted(name: Bytes, a: int32, b: int32, c: int32, d: int32)
    ensures
      var r := Denote(CallTree(FlatItems("dddd")), Arrays([[UStr(Some(name)), UNum(a), UNum(b), UNum(c), UNum(d)]], 0, 0));
      r.Ok? && r.value.objs == [Str(name), Arr([Signed(a), Signed(b), Signed(c), Signed(d)])]
  {
    TwoNumbers("", c, d, [], []);
    assert "dd" + "" == "dd" && [UNum(c), UNum(d)] + [] == [UNum(c), UNum(d)] && Numbers(c, d) + [] == Numbers(c, d);
    TwoNumbers("dd", a, b, [UNum(c), UNum(d)], Numbers(c, d));
    assert "dd" + "dd" == "dddd";
    var slots := [UStr(Some(name)), UNum(a), UNum(b), UNum(c), UNum(d)];
    assert slots[1..] == [UNum(a), UNum(b)] + [UNum(c), UNum(d)];
    assert Numbers(a, b) + Numbers(c, d) == [Signed(a), Signed(b), Signed(c), Signed(d)];
    CallDenoted("dddd", name, slots);
  }

  lemma HlTail(group: Bytes, c: int64, d: int64, e: int64)
    ensures SlotValues(",s,ddd", [UStr(Some(group)), UNum(c), UNum(d), UNum(e)])
         == Some([Str(group)] + (Numbers(c, d) + [Signed(ToInt32(e))]))
  {
    var last, objs := [UNum(c), UNum(d), UNum(e)], Numbers(c, d) + [Signed(ToInt32(e))];
    NumberSlot("", e, [], []);
    assert "d" + "" == "d" && [UNum(e)] + [] == [UNum(e)] && [Signed(ToInt32(e))] + [] == [Signed(ToInt32(e))];
    TwoNumbers("d", c, d, [UNum(e)], [Signed(ToInt32(e))]);
    assert "dd" + "d" == "ddd" && [UNum(c), UNum(d)] + [UNum(e)] == last;
    SlotSkip(',', "ddd", last);
    assert [','] + "ddd" == ",ddd";
    SlotStep('s', ",ddd", UStr(Some(group)), last, Str(group), objs);
    assert ['s'] + ",ddd" == "s,ddd";
    SlotSkip(',', "s,ddd", [UStr(Some(group))] + last);
    assert [','] + "s,ddd" == ",s,ddd";
    assert [UStr(Some(group))] + last == [UStr(Some(group)), UNum(c), UNum(d), UNum(e)];
  }

  /** A highlight call is the method name with two numbers, the group, and three more numbers. */
  lemma HlCallDenoted(name: Bytes, a: int32, b: int32, group: Bytes, c: int64, d: int64, e: int64)
    ensures
      var slots := [UStr(Some(name)), UNum(a), UNum(b), UStr(Some(group)), UNum(c), UNum(d), UNum(e)];
      var r := Denote(CallTree(FlatItems("dd,s,ddd")), Arrays([slots], 0, 0));
      r.Ok? && r.value.objs
        == [Str(name), Arr([Signed(a), Signed(b), Str(group), Signed(ToInt32(c)), Signed(ToInt32(d)), Signed(ToInt32(e))])]
  {
    var tail := [UStr(Some(group)), UNum(c), UNum(d), UNum(e)];
    HlTail(group, c, d, e);
    TwoNumbers(",s,ddd", a, b, tail, [Str(group)] + (Numbers(c, d) + [Signed(ToInt32(e))]));
    assert "dd" + ",s,ddd" == "dd,s,ddd";
    var slots := [UStr(Some(name)), UNum(a), UNum(b), UStr(Some(group)), UNum(c), UNum(d), UNum(e)];
    assert slots[1..] == [UNum(a), UNum(b)] + tail;
    assert Numbers(a, b) + ([Str(group)] + (Numbers(c, d) + [Signed(ToInt32(e))]))
        == [Signed(a), Signed(b), Str(group), Signed(ToInt32(c)), Signed(ToInt32(d)), Signed(ToInt32(e))];
    CallDenoted("dd,s,ddd", name, slots);
  }

  /** A flat call's print is a proper format. */
  lemma FlatCallShown(params: string)
    requires FlatFormat(params)
    ensures Show(CallTree(FlatItems(params))) == "s[" + params + "]"
    ensures WellFormed(CallTree(FlatItems(params))) && SwitchFree(CallTree(FlatItems(params)))
  {
    FlatShown(params);
    CallTreeShown(FlatItems(params));
  }

  /** One [name, [cmd]] per command. */
  function CommandObjects(name: Bytes, cmds: seq<Bytes>): (objs: seq<Obj>)
    ensures |objs| == |cmds|
  {
    seq(|cmds|, k requires 0 <= k < |cmds| => Arr([Str(name), Arr([Str(cmds[k])])]))
  }

  function CommandArguments(name: Bytes, cmds: seq<Bytes>): (args: seq<seq<UArg>>)
    ensures |args| == |cmds|
  {
    seq(|cmds|, k requires 0 <= k < |cmds| => [UStr(Some(name)), UStr(Some(cmds[k]))])
  }

  function CommandFormats(n: nat): (fmts: seq<string>)
    ensures |fmts| == n
  {
    seq(n, _ => CMD_FORMAT)
  }

  function CommandTrees(n: nat): (calls: seq<seq<Item>>)
    ensures |calls| == n
  {
    seq(n, _ => CallTree(FlatItems("s")))
  }

  lemma {:induction false} CommandsDenoted(name: Bytes, cmds: seq<Bytes>)
    ensures CallObjects(CommandTrees(|cmds|), CommandArguments(name, cmds)) == Ok(CommandObjects(name, cmds))
    decreases |cmds|
  {
    if |cmds| > 0 {
      var n := |cmds| - 1;
      CommandsDenoted(name, cmds[..n]);
      CmdCallDenoted(name, cmds[n]);
      assert CommandTrees(|cmds|)[..n] == CommandTrees(n);
      assert CommandArguments(name, cmds)[..n] == CommandArguments(name, cmds[..n]);
      assert CommandObjects(name, cmds) == CommandObjects(name, cmds[..n]) + [CommandObjects(name, cmds)[n]];
    }
  }

  /** A batch of commands is read by the peer as exactly those commands, in order, whatever their bytes. */
  lemma CommandBatchDecodes(name: Bytes, cmds: seq<Bytes>, id: int32)
    requires |cmds| > 0 && |AtomicText(CommandFormats(|cmds|))| < UINT32_MAX
    ensures
      var r := Compile(AtomicText(CommandFormats(|cmds|)), AtomicArgs(id, CommandArguments(name, cmds)));
      r.Ok? && r.value.Some? && Decode(r.value.value)
        == Done(Arr([Unsigned(0), ReceivedInteger(id), Str(Ascii(CALL_ATOMIC)), Arr([Arr(CommandObjects(name, cmds))])]), [])
  {
    var calls, args, objs := CommandTrees(|cmds|), CommandArguments(name, cmds), CommandObjects(name, cmds);
    CmdTreeShown();
    assert Shown(calls) == CommandFormats(|cmds|);
    CommandsDenoted(name, cmds);
    AtomicCall(calls, args, id);
    AtomicEncodable(calls, args, id);
    RoundTrip(AtomicRequest(id, objs), []);
    assert Encode(AtomicRequest(id, objs)) + [] == Encode(AtomicRequest(id, objs));
    ReceivedCommands(name, cmds);
    ReceivedRequest(id, Ascii(CALL_ATOMIC), objs);
  }

  lemma AtomicEncodable(calls: seq<seq<Item>>, args: seq<seq<UArg>>, id: int32)
    requires |calls| == |args| && ProperCalls(calls) && |AtomicText(Shown(calls))| < UINT32_MAX
    requires CallObjects(calls, args).Ok?
    ensures Encodable(AtomicRequest(id, CallObjects(calls, args).value))
  {
    var tree := RequestTree(AtomicItems(calls));
    AtomicShown(calls);
    RequestDenoted(AtomicItems(calls), id, Ascii(CALL_ATOMIC), [VArrays(args)]);
    AtomicParamsDenoted(calls, args);
    RequestShown(AtomicItems(calls));
    DenoteEncodable([tree], VaList(AtomicArgs(id, args)));
  }

  lemma ReceivedRequest(id: int32, name: Bytes, objs: seq<Obj>)
    ensures Received(Request(id, name, [Arr(objs)]))
         == Arr([Unsigned(0), ReceivedInteger(id), Str(name), Arr([Arr(ReceivedAll(objs))])])
  {
    var params := Arr([Arr(objs)]);
    ReceivedOne(Arr(objs));
    ReceivedOne(params);
    ReceivedCons(Str(name), [params]);
    assert [Str(name)] + [params] == [Str(name), params];
    ReceivedCons(Signed(id), [Str(name), params]);
    assert [Signed(id)] + [Str(name), params] == [Signed(id), Str(name), params];
    ReceivedCons(Signed(MES_REQUEST), [Signed(id), Str(name), params]);
    assert [Signed(MES_REQUEST)] + [Signed(id), Str(name), params] == [Signed(MES_REQUEST), Signed(id), Str(name), params];
  }

  lemma ReceivedOne(o: Obj)
    ensures ReceivedAll([o]) == [Received(o)]
  {
    ReceivedCons(o, []);
    assert [o] + [] == [o];
  }

  lemma ReceivedCons(o: Obj, others: seq<Obj>)
    ensures ReceivedAll([o] + others) == [Received(o)] + ReceivedAll(others)
  {
    assert ([o] + others)[1..] == others;
  }

  lemma {:induction false} ReceivedCommands(name: Bytes, cmds: seq<Bytes>)
    ensures ReceivedAll(CommandObjects(name, cmds)) == CommandObjects(name, cmds)
    decreases |cmds|
  {
    if |cmds| > 0 {
      ReceivedCommands(name, cmds[1..]);
      ReceivedCommand(name, cmds[0]);
      var first := Arr([Str(name), Arr([Str(cmds[0])])]);
      assert CommandObjects(name, cmds) == [first] + CommandObjects(name, cmds[1..]);
      ReceivedCons(first, CommandObjects(name, cmds[1..]));
    }
  }

  lemma ReceivedCommand(name: Bytes, cmd: Bytes)
    ensures Received(Arr([Str(name), Arr([Str(cmd)])])) == Arr([Str(name), Arr([Str(cmd)])])
  {
    var one := [Str(cmd)];
    ReceivedCons(Str(cmd), []);
    assert one == [Str(cmd)] + [];
    ReceivedCons(Arr(one), []);
    assert [Arr(one)] == [Arr(one)] + [];
    ReceivedCons(Str(name), [Arr(one)]);
    assert [Str(name), Arr(one)] == [Str(name)] + [Arr(one)];
  }
}
